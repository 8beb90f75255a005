/** How far a refresh keeps the online keys apart from the offline ones, and its expiries in order. */
module TufSeparation {
  import opened Results
  import opened CodeUnits
  import opened Text
  import opened TufMetadata
  import opened TufPublication
  import opened TufRefresh

  // ---- The keys with offline authority ----

  /** The keys the root declares for its root and targets roles. */
  function RootAuthority(root: Signed): map<string, string>
    requires root.RootSigned?
  {
    AuthorityKeys(root, root.roles.root.keyids + root.roles.targets.keyids)
  }

  /** The keys the targets file declares for the components role. */
  function Delegated(targets: Signed): map<string, string>
    requires DelegatesComponents(targets)
  {
    DelegatedKeys(targets.delegations.value.keys, targets.delegations.value.roles[0].role)
  }

  predicate SharesNothing(crypto: Crypto, s: Signer, keys: map<string, string>) {
    forall id :: id in keys ==> s.keyId != id && crypto.spki(s.publicKeyPem) != crypto.spki(keys[id])
  }

  predicate IsOnline(x: RefreshInput, s: Signer) { s in x.timestamp.signers || s in x.snapshot.signers }

  /** What the refresh promises: no online signer shares an id or key material with any key that holds
      root, targets or components authority. */
  ghost predicate Separated(crypto: Crypto, x: RefreshInput)
    requires x.trustedRoot.signed.RootSigned? && DelegatesComponents(x.targets.signed)
  {
    forall s :: IsOnline(x, s) ==>
      SharesNothing(crypto, s, RootAuthority(x.trustedRoot.signed)) && SharesNothing(crypto, s, Delegated(x.targets.signed))
  }

  /** The delegation redeclares the id of a root or targets key for another key, so the table of offline
      keys, which is one map by id, no longer holds the first. */
  predicate Overwritten(crypto: Crypto, root: Signed, targets: Signed, k: string)
    requires root.RootSigned? && DelegatesComponents(targets)
  {
    k in RootAuthority(root) && k in Delegated(targets)
    && crypto.spki(RootAuthority(root)[k]) != crypto.spki(Delegated(targets)[k])
  }

  lemma AcceptedShapes(crypto: Crypto, x: RefreshInput, now: int)
    requires Refresh(crypto, x, now).Ok?
    ensures OfflineVerified(crypto, x.trustedRoot, x.targets, x.components, now)
    ensures x.trustedRoot.signed.RootSigned? && DelegatesComponents(x.targets.signed)
    ensures RolePublished(x.trustedRoot.signed.roles.timestamp) && RolePublished(x.trustedRoot.signed.roles.snapshot)
  {
    hide MeetsThreshold, RolePublished, KeysPublished, RefreshError, SignedOnline;
  }

  lemma OfflineTable(root: Signed, targets: Signed)
    requires root.RootSigned? && DelegatesComponents(targets)
    ensures OfflineKeys(root, targets) == RootAuthority(root) + Delegated(targets)
  {
  }

  /** An accepted refresh is separated exactly when no online signer carries the material of an
      overwritten key. */
  lemma SeparatedIff(crypto: Crypto, x: RefreshInput, now: int)
    requires Refresh(crypto, x, now).Ok?
    ensures x.trustedRoot.signed.RootSigned? && DelegatesComponents(x.targets.signed)
    ensures var root, targets := x.trustedRoot.signed, x.targets.signed;
            Separated(crypto, x) <==>
              forall s, k :: IsOnline(x, s) && Overwritten(crypto, root, targets, k) ==>
                crypto.spki(s.publicKeyPem) != crypto.spki(RootAuthority(root)[k])
  {
    AcceptedShapes(crypto, x, now);
    var root, targets := x.trustedRoot.signed, x.targets.signed;
    OfflineTable(root, targets);
    hide Refresh, RootAuthority, Delegated, DelegatesComponents, OfflineKeys, OfflineVerified, IsOnline, RolePublished;
    if forall s, k :: IsOnline(x, s) && Overwritten(crypto, root, targets, k) ==>
         crypto.spki(s.publicKeyPem) != crypto.spki(RootAuthority(root)[k])
    {
      forall s | IsOnline(x, s)
        ensures SharesNothing(crypto, s, RootAuthority(root)) && SharesNothing(crypto, s, Delegated(targets))
      {
        SignerSharesNothing(crypto, x, now, s);
      }
    }
  }

  lemma SignerSharesNothing(crypto: Crypto, x: RefreshInput, now: int, s: Signer)
    requires Refresh(crypto, x, now).Ok? && IsOnline(x, s)
    requires x.trustedRoot.signed.RootSigned? && DelegatesComponents(x.targets.signed)
    requires forall k :: Overwritten(crypto, x.trustedRoot.signed, x.targets.signed, k) ==>
               crypto.spki(s.publicKeyPem) != crypto.spki(RootAuthority(x.trustedRoot.signed)[k])
    ensures SharesNothing(crypto, s, RootAuthority(x.trustedRoot.signed))
    ensures SharesNothing(crypto, s, Delegated(x.targets.signed))
  {
    var root, targets := x.trustedRoot.signed, x.targets.signed;
    OfflineTable(root, targets);
    hide Refresh, RootAuthority, Delegated, DelegatesComponents, OfflineKeys;
    forall id | id in OfflineKeys(root, targets)
      ensures s.keyId != id && crypto.spki(s.publicKeyPem) != crypto.spki(OfflineKeys(root, targets)[id])
    {
      RefreshKeepsRolesApart(crypto, x, now, s, id);
    }
    forall id | id in RootAuthority(root)
      ensures s.keyId != id && crypto.spki(s.publicKeyPem) != crypto.spki(RootAuthority(root)[id])
    {
      assert id in OfflineKeys(root, targets);
      if id in Delegated(targets) {
        assert OfflineKeys(root, targets)[id] == Delegated(targets)[id];
      }
    }
  }

  /** When the two files never give one id two keys, every refresh is separated. */
  lemma OneKeyPerIdSeparates(crypto: Crypto, x: RefreshInput, now: int)
    requires Refresh(crypto, x, now).Ok?
    requires x.trustedRoot.signed.RootSigned? && DelegatesComponents(x.targets.signed)
    requires forall k :: k in RootAuthority(x.trustedRoot.signed) && k in Delegated(x.targets.signed) ==>
               RootAuthority(x.trustedRoot.signed)[k] == Delegated(x.targets.signed)[k]
    ensures Separated(crypto, x)
  {
    hide Refresh, RootAuthority, Delegated, DelegatesComponents, Separated;
    SeparatedIff(crypto, x, now);
  }

  // ---- Which releases separate every refresh ----

  /** A key the guard of the online signers lets through: the root holds it under an id with no offline
      authority, and the table of offline keys does not hold its material. */
  predicate Usable(crypto: Crypto, rootKeys: map<string, string>, offline: map<string, string>, id: string) {
    id in rootKeys && crypto.spki(rootKeys[id]).Some? && id !in offline
    && forall k :: k in offline ==> crypto.spki(offline[k]) != crypto.spki(rootKeys[id])
  }

  /** A usable online key that the root declares with the material of an overwritten key. */
  ghost predicate SlipsThrough(crypto: Crypto, root: Signed, targets: Signed, id: string)
    requires root.RootSigned? && DelegatesComponents(targets)
  {
    && (id in root.roles.timestamp.keyids || id in root.roles.snapshot.keyids)
    && Usable(crypto, root.keys, OfflineKeys(root, targets), id)
    && exists k :: Overwritten(crypto, root, targets, k) && crypto.spki(root.keys[id]) == crypto.spki(RootAuthority(root)[k])
  }

  predicate SameRelease(x: RefreshInput, y: RefreshInput) {
    x.trustedRoot == y.trustedRoot && x.targets == y.targets && x.components == y.components
  }

  /** Somebody can sign with every usable online key, and the empty text is no key. */
  ghost predicate OnlineKeysHeld(crypto: Crypto, root: Signed)
    requires root.RootSigned?
  {
    && crypto.spki("").None?
    && KeysHeld(crypto, root.roles.timestamp.keyids, root.keys) && KeysHeld(crypto, root.roles.snapshot.keyids, root.keys)
  }

  ghost predicate KeysHeld(crypto: Crypto, ids: seq<string>, rootKeys: map<string, string>) {
    forall id :: id in ids && id in rootKeys && crypto.spki(rootKeys[id]).Some? ==> Honest(crypto, Signer(id, rootKeys[id]))
  }

  function UsableSigners(
    crypto: Crypto, ids: seq<string>, rootKeys: map<string, string>, offline: map<string, string>): seq<Signer>
  {
    if ids == [] then []
    else if Usable(crypto, rootKeys, offline, ids[0]) then
      [Signer(ids[0], rootKeys[ids[0]])] + UsableSigners(crypto, ids[1..], rootKeys, offline)
    else UsableSigners(crypto, ids[1..], rootKeys, offline)
  }

  lemma {:induction false} UsableSignersHold(
    crypto: Crypto, ids: seq<string>, rootKeys: map<string, string>, offline: map<string, string>)
    ensures forall s :: s in UsableSigners(crypto, ids, rootKeys, offline) <==>
              s.keyId in ids && Usable(crypto, rootKeys, offline, s.keyId) && s.publicKeyPem == rootKeys[s.keyId]
  {
    hide Usable;
    if ids != [] {
      UsableSignersHold(crypto, ids[1..], rootKeys, offline);
      assert ids == [ids[0]] + ids[1..];
    }
  }

  lemma {:induction false} UsableSignersDistinct(
    crypto: Crypto, ids: seq<string>, rootKeys: map<string, string>, offline: map<string, string>)
    requires DistinctKeys(ids, Whole)
    ensures DistinctKeys(UsableSigners(crypto, ids, rootKeys, offline), KeyIdOf)
  {
    hide Usable;
    if ids != [] {
      var rest := UsableSigners(crypto, ids[1..], rootKeys, offline);
      forall i, j | 0 <= i < j < |ids| - 1
        ensures Whole(ids[1..][i]) != Whole(ids[1..][j])
      {
        assert Whole(ids[i + 1]) != Whole(ids[j + 1]);
      }
      UsableSignersDistinct(crypto, ids[1..], rootKeys, offline);
      UsableSignersHold(crypto, ids[1..], rootKeys, offline);
      forall s | s in rest
        ensures s.keyId != ids[0]
      {
        var i :| 0 <= i < |ids| - 1 && ids[1..][i] == s.keyId;
        assert Whole(ids[0]) != Whole(ids[i + 1]);
      }
    }
  }

  /** Signers that pass every check of one online role, each with the root's key for its id. */
  ghost predicate Ready(
    crypto: Crypto, signers: seq<Signer>, declared: Role, rootKeys: map<string, string>, offline: map<string, string>)
  {
    && SignersValid(signers, declared.threshold)
    && forall s :: s in signers ==>
         && s.keyId in declared.keyids && Usable(crypto, rootKeys, offline, s.keyId)
         && s.publicKeyPem == rootKeys[s.keyId] && Honest(crypto, s)
  }

  lemma AcceptedIdsAreUsable(
    crypto: Crypto, r: RoleSigners, declared: Role, rootKeys: map<string, string>, offline: map<string, string>)
    requires OnlineRoleError(crypto, r, declared, rootKeys, offline).None?
    ensures SignersValid(r.signers, r.threshold) && |r.signers| >= declared.threshold
    ensures forall s :: s in r.signers ==> s.keyId in declared.keyids && Usable(crypto, rootKeys, offline, s.keyId)
  {
    hide SignersValid;
    TufRefresh.SignersErrorIff(crypto, r.signers, declared, rootKeys, offline);
    RoleErrorIff(r);
  }

  lemma UsableSignersAreMany(
    crypto: Crypto, r: RoleSigners, declared: Role, rootKeys: map<string, string>, offline: map<string, string>)
    requires OnlineRoleError(crypto, r, declared, rootKeys, offline).None?
    ensures |UsableSigners(crypto, declared.keyids, rootKeys, offline)| >= declared.threshold
  {
    var all := UsableSigners(crypto, declared.keyids, rootKeys, offline);
    AcceptedIdsAreUsable(crypto, r, declared, rootKeys, offline);
    UsableSignersHold(crypto, declared.keyids, rootKeys, offline);
    hide Usable, UsableSigners, OnlineRoleError, IsKeyId;
    forall id | id in KeySet(r.signers, KeyIdOf)
      ensures id in KeySet(all, KeyIdOf)
    {
      var s :| s in r.signers && KeyIdOf(s) == id;
      assert Signer(id, rootKeys[id]) in all && KeyIdOf(Signer(id, rootKeys[id])) == id;
    }
    SubsetSize(KeySet(r.signers, KeyIdOf), KeySet(all, KeyIdOf));
    DistinctIffSetSize(all, KeyIdOf);
  }

  lemma UsableSignersAreReady(
    crypto: Crypto, r: RoleSigners, declared: Role, rootKeys: map<string, string>, offline: map<string, string>)
    requires OnlineRoleError(crypto, r, declared, rootKeys, offline).None? && RolePublished(declared)
    requires KeysHeld(crypto, declared.keyids, rootKeys) && crypto.spki("").None?
    ensures Ready(crypto, UsableSigners(crypto, declared.keyids, rootKeys, offline), declared, rootKeys, offline)
  {
    var all := UsableSigners(crypto, declared.keyids, rootKeys, offline);
    hide OnlineRoleError, UsableSigners, IsKeyId, Honest;
    UsableSignersAreMany(crypto, r, declared, rootKeys, offline);
    UsableSignersHold(crypto, declared.keyids, rootKeys, offline);
    DistinctIffSetSize(declared.keyids, Whole);
    UsableSignersDistinct(crypto, declared.keyids, rootKeys, offline);
    DistinctIffSetSize(all, KeyIdOf);
  }

  lemma ReadyIsAccepted(
    crypto: Crypto, signers: seq<Signer>, declared: Role, rootKeys: map<string, string>, offline: map<string, string>)
    requires Ready(crypto, signers, declared, rootKeys, offline)
    ensures OnlineRoleError(crypto, RoleSigners(signers, declared.threshold), declared, rootKeys, offline).None?
  {
    hide SignersValid, Honest;
    RoleErrorIff(RoleSigners(signers, declared.threshold));
    TufRefresh.SignersErrorIff(crypto, signers, declared, rootKeys, offline);
    hide RoleError;
    assert |signers| >= declared.threshold by { EnoughSigners(signers, declared.threshold); }
  }

  lemma EnoughSigners(signers: seq<Signer>, threshold: int)
    requires SignersValid(signers, threshold)
    ensures |signers| >= threshold
  {
  }

  lemma ReadySigns(
    crypto: Crypto, signed: Signed, signers: seq<Signer>, declared: Role, rootKeys: map<string, string>,
    offline: map<string, string>)
    requires Ready(crypto, signers, declared, rootKeys, offline)
    ensures SignedEnvelope(crypto, signed, signers).Ok? && SignedEnvelope(crypto, signed, signers).value.signed == signed
    ensures MeetsThreshold(crypto, SignedEnvelope(crypto, signed, signers).value, rootKeys, declared)
  {
    hide SignersValid, Honest, SignedEnvelope, Counts;
    SignersMeetThreshold(crypto, signed, signers, declared.threshold, rootKeys);
    var file, own := SignedEnvelope(crypto, signed, signers).value, RoleOf(signers, declared.threshold);
    forall id | id in SigningKeys(crypto, file, rootKeys, own)
      ensures id in SigningKeys(crypto, file, rootKeys, declared)
    {
      var s :| s in file.signatures && Counts(crypto, s, signed, rootKeys, own) && s.keyid == id;
      CountsForDeclared(crypto, s, signed, signers, declared, rootKeys, offline);
    }
    SubsetSize(SigningKeys(crypto, file, rootKeys, own), SigningKeys(crypto, file, rootKeys, declared));
  }

  lemma CountsForDeclared(
    crypto: Crypto, s: Signature, signed: Signed, signers: seq<Signer>, declared: Role, rootKeys: map<string, string>,
    offline: map<string, string>)
    requires Ready(crypto, signers, declared, rootKeys, offline)
    requires Counts(crypto, s, signed, rootKeys, RoleOf(signers, declared.threshold))
    ensures Counts(crypto, s, signed, rootKeys, declared)
  {
    hide SignersValid, Honest, IsHexText, Usable;
    var i :| 0 <= i < |signers| && Ids(signers)[i] == s.keyid;
    assert signers[i] in signers;
  }

  /** The same refresh, signed with every usable key of both online roles. */
  function WithAllKeys(crypto: Crypto, y: RefreshInput): RefreshInput
    requires y.trustedRoot.signed.RootSigned? && DelegatesComponents(y.targets.signed)
  {
    var root, offline := y.trustedRoot.signed, OfflineKeys(y.trustedRoot.signed, y.targets.signed);
    y.(timestamp := RoleSigners(UsableSigners(crypto, root.roles.timestamp.keyids, root.keys, offline),
                                root.roles.timestamp.threshold),
       snapshot := RoleSigners(UsableSigners(crypto, root.roles.snapshot.keyids, root.keys, offline),
                               root.roles.snapshot.threshold))
  }

  lemma AllKeysAreReady(crypto: Crypto, y: RefreshInput, now: int)
    requires Refresh(crypto, y, now).Ok?
    requires y.trustedRoot.signed.RootSigned? && DelegatesComponents(y.targets.signed)
    requires OnlineKeysHeld(crypto, y.trustedRoot.signed)
    ensures var root, offline, x := y.trustedRoot.signed, OfflineKeys(y.trustedRoot.signed, y.targets.signed), WithAllKeys(crypto, y);
            && Ready(crypto, x.timestamp.signers, root.roles.timestamp, root.keys, offline)
            && Ready(crypto, x.snapshot.signers, root.roles.snapshot, root.keys, offline)
  {
    var root, offline := y.trustedRoot.signed, OfflineKeys(y.trustedRoot.signed, y.targets.signed);
    AcceptedShapes(crypto, y, now);
    hide RolePublished, KeysHeld, OfflineVerified, UsableSigners, OnlineRoleError, Ready, SignedOnline, OfflineKeys;
    UsableSignersAreReady(crypto, y.timestamp, root.roles.timestamp, root.keys, offline);
    UsableSignersAreReady(crypto, y.snapshot, root.roles.snapshot, root.keys, offline);
  }

  /** A refresh over verified offline metadata is accepted when its versions and expiries are in order
      and both its roles are ready. */
  lemma ReadyRefreshes(crypto: Crypto, x: RefreshInput, now: int)
    requires OfflineVerified(crypto, x.trustedRoot, x.targets, x.components, now)
    requires VersionError(x.snapshotVersion, x.targets.signed.version).None?
    requires VersionError(x.timestampVersion, x.targets.signed.version).None?
    requires ExpiryError(ExpiriesOf(x), now).None?
    requires var root, offline := x.trustedRoot.signed, OfflineKeys(x.trustedRoot.signed, x.targets.signed);
             && (forall id :: id in offline ==> crypto.spki(offline[id]).Some?)
             && Ready(crypto, x.timestamp.signers, root.roles.timestamp, root.keys, offline)
             && Ready(crypto, x.snapshot.signers, root.roles.snapshot, root.keys, offline)
             && x.timestamp.threshold == root.roles.timestamp.threshold
             && x.snapshot.threshold == root.roles.snapshot.threshold
    ensures Refresh(crypto, x, now).Ok?
  {
    var root, offline := x.trustedRoot.signed, OfflineKeys(x.trustedRoot.signed, x.targets.signed);
    hide OfflineVerified, OnlineRoleError, Ready, OfflineKeys, DelegatesComponents, MeetsThreshold, SignedEnvelope,
      VersionError, ExpiryError;
    ReadyIsAccepted(crypto, x.timestamp.signers, root.roles.timestamp, root.keys, offline);
    ReadyIsAccepted(crypto, x.snapshot.signers, root.roles.snapshot, root.keys, offline);
    var v := Versions(x.targets.signed.version, x.snapshotVersion, x.timestampVersion);
    var snapshotSigned := SnapshotSignedOf(x.targets, x.components, v, x.snapshotExpires);
    ReadySigns(crypto, snapshotSigned, x.snapshot.signers, root.roles.snapshot, root.keys, offline);
    var snapshot := SignedEnvelope(crypto, snapshotSigned, x.snapshot.signers).value;
    var timestampSigned := TimestampSigned(v.timestamp, x.timestampExpires, FileMeta(v.snapshot, OfFile(snapshot)));
    ReadySigns(crypto, timestampSigned, x.timestamp.signers, root.roles.timestamp, root.keys, offline);
  }

  lemma AllKeysRefresh(crypto: Crypto, y: RefreshInput, now: int)
    requires Refresh(crypto, y, now).Ok?
    requires y.trustedRoot.signed.RootSigned? && DelegatesComponents(y.targets.signed)
    requires OnlineKeysHeld(crypto, y.trustedRoot.signed)
    ensures Refresh(crypto, WithAllKeys(crypto, y), now).Ok?
  {
    AllKeysAreReady(crypto, y, now);
    AcceptedShapes(crypto, y, now);
    hide OnlineKeysHeld, UsableSigners, OfflineVerified, OnlineRoleError, Ready, OfflineKeys, DelegatesComponents, SignedOnline,
      VersionError, ExpiryError;
    ReadyRefreshes(crypto, WithAllKeys(crypto, y), now);
  }

  lemma SlippingKeySigns(crypto: Crypto, y: RefreshInput, id: string)
    requires y.trustedRoot.signed.RootSigned? && DelegatesComponents(y.targets.signed)
    requires SlipsThrough(crypto, y.trustedRoot.signed, y.targets.signed, id)
    ensures !Separated(crypto, WithAllKeys(crypto, y))
  {
    var root, offline, x := y.trustedRoot.signed, OfflineKeys(y.trustedRoot.signed, y.targets.signed), WithAllKeys(crypto, y);
    UsableSignersHold(crypto, root.roles.timestamp.keyids, root.keys, offline);
    UsableSignersHold(crypto, root.roles.snapshot.keyids, root.keys, offline);
    hide UsableSigners, OfflineKeys, DelegatesComponents, RootAuthority, Delegated, Usable;
    var s := Signer(id, root.keys[id]);
    assert IsOnline(x, s);
    assert !SharesNothing(crypto, s, RootAuthority(root));
  }

  lemma UnseparatedSlips(crypto: Crypto, x: RefreshInput, now: int)
    requires Refresh(crypto, x, now).Ok?
    requires x.trustedRoot.signed.RootSigned? && DelegatesComponents(x.targets.signed)
    requires !Separated(crypto, x)
    ensures exists id :: SlipsThrough(crypto, x.trustedRoot.signed, x.targets.signed, id)
  {
    var root, targets := x.trustedRoot.signed, x.targets.signed;
    SeparatedIff(crypto, x, now);
    hide RootAuthority, Delegated, Overwritten, DelegatesComponents, Separated, OfflineKeys;
    var s, k :| IsOnline(x, s) && Overwritten(crypto, root, targets, k)
      && crypto.spki(s.publicKeyPem) == crypto.spki(RootAuthority(root)[k]);
    SignerIsUsable(crypto, x, now, s);
    assert SlipsThrough(crypto, root, targets, s.keyId);
  }

  lemma SignerIsUsable(crypto: Crypto, x: RefreshInput, now: int, s: Signer)
    requires Refresh(crypto, x, now).Ok? && IsOnline(x, s)
    requires x.trustedRoot.signed.RootSigned? && DelegatesComponents(x.targets.signed)
    ensures var root, offline := x.trustedRoot.signed, OfflineKeys(x.trustedRoot.signed, x.targets.signed);
            && Usable(crypto, root.keys, offline, s.keyId)
            && crypto.spki(root.keys[s.keyId]) == crypto.spki(s.publicKeyPem)
            && (s.keyId in root.roles.timestamp.keyids || s.keyId in root.roles.snapshot.keyids)
  {
    var root, offline := x.trustedRoot.signed, OfflineKeys(x.trustedRoot.signed, x.targets.signed);
    hide OfflineKeys, MeetsThreshold, SignedOnline, RoleError, RolePublished, KeysPublished, DelegatesComponents;
    TufRefresh.SignersErrorIff(crypto, x.timestamp.signers, root.roles.timestamp, root.keys, offline);
    TufRefresh.SignersErrorIff(crypto, x.snapshot.signers, root.roles.snapshot, root.keys, offline);
  }

  /** A release that can be refreshed at all is separated in every refresh it accepts exactly when the
      root declares no usable online key with the material of a key the delegation overwrites. */
  lemma SeparationIff(crypto: Crypto, y: RefreshInput, now: int)
    requires Refresh(crypto, y, now).Ok?
    requires y.trustedRoot.signed.RootSigned? && DelegatesComponents(y.targets.signed)
    requires OnlineKeysHeld(crypto, y.trustedRoot.signed)
    ensures (forall x :: SameRelease(x, y) && Refresh(crypto, x, now).Ok? ==> Separated(crypto, x))
            <==> !exists id :: SlipsThrough(crypto, y.trustedRoot.signed, y.targets.signed, id)
  {
    hide Refresh, DelegatesComponents, Separated, SlipsThrough, OnlineKeysHeld;
    if id :| SlipsThrough(crypto, y.trustedRoot.signed, y.targets.signed, id) {
      AllKeysRefresh(crypto, y, now);
      SlippingKeySigns(crypto, y, id);
      assert SameRelease(WithAllKeys(crypto, y), y);
    }
    if x :| SameRelease(x, y) && Refresh(crypto, x, now).Ok? && !Separated(crypto, x) {
      UnseparatedSlips(crypto, x, now);
    }
  }

  // ---- Releases that show it ----

  /** Cryptography under which every key signs and every text but the empty one is its own key. */
  function EveryKeySigns(): Crypto {
    Crypto((_, _) => Some("a"), (_, _, _) => true, pem => if pem == "" then None else Some(pem))
  }

  function KeyId(c: char): string { seq(64, _ => c) }

  function Alone(signer: Signer): RoleSigners { RoleSigners([signer], 1) }

  function SignedBy(signed: Signed, signer: Signer): Envelope { Envelope([Signature(signer.keyId, "a")], signed) }

  /** A release with one key for each role: `a` is the root's, `b` the targets' and the components', and
      `c` the online one. The root and the delegation each declare their own material for `b`. */
  function ExampleRelease(
    root: int, targets: int, components: int, online: int, targetsPem: string, delegatedPem: string, onlinePem: string)
    : RefreshInput
  {
    var a, b, c := Signer(KeyId('a'), "root"), Signer(KeyId('b'), targetsPem), Signer(KeyId('c'), onlinePem);
    var role := s => RoleOf([s], 1);
    var rootSigned := RootSigned(
      1, root, map[a.keyId := a.publicKeyPem, b.keyId := targetsPem, c.keyId := onlinePem],
      Roles(role(a), role(c), role(c), role(b)), true);
    var delegations := Delegations(map[b.keyId := delegatedPem], [DelegatedRole("components", role(b), [])]);
    RefreshInput(
      SignedBy(rootSigned, a),
      SignedBy(TargetsSigned(1, targets, map[], Some(delegations)), b),
      SignedBy(TargetsSigned(1, components, map[], None), b),
      2, 2, online, online, Alone(c), Alone(c))
  }

  lemma KeyIdsAreDistinct()
    ensures IsKeyId(KeyId('a')) && IsKeyId(KeyId('b')) && IsKeyId(KeyId('c'))
    ensures KeyId('a') != KeyId('b') && KeyId('a') != KeyId('c') && KeyId('b') != KeyId('c')
  {
    assert KeyId('a')[0] == 'a' && KeyId('b')[0] == 'b' && KeyId('c')[0] == 'c';
  }

  lemma SingleIsValid(s: Signer)
    requires IsKeyId(s.keyId) && s.publicKeyPem != ""
    ensures SignersValid([s], 1) && RolePublished(RoleOf([s], 1)) && Ids([s]) == [s.keyId]
  {
    hide IsKeyId;
    DistinctIffSetSize([s], KeyIdOf);
    RolesArePublished([s], 1);
  }

  lemma SignaturesInOrder(crypto: Crypto, signed: Signed, signers: seq<Signer>)
    requires SignedEnvelope(crypto, signed, signers).Ok?
    ensures var file := SignedEnvelope(crypto, signed, signers).value;
            && file.signed == signed && |file.signatures| == |signers|
            && forall i :: 0 <= i < |signers| ==> SignOne(crypto, signers[i], signed) == Ok(file.signatures[i])
  {
    hide SignOne, Traverse;
    var f := s => SignOne(crypto, s, signed);
    TraverseAt(signers, f);
    forall i | 0 <= i < |signers|
      ensures SignOne(crypto, signers[i], signed) == Ok(SignedEnvelope(crypto, signed, signers).value.signatures[i])
    {
      assert f(signers[i]) == SignOne(crypto, signers[i], signed);
    }
  }

  lemma SignsAlone(signed: Signed, s: Signer, keys: map<string, string>)
    requires IsKeyId(s.keyId) && s.publicKeyPem != "" && s.keyId in keys && keys[s.keyId] == s.publicKeyPem
    ensures SignedEnvelope(EveryKeySigns(), signed, [s]) == Ok(SignedBy(signed, s))
    ensures MeetsThreshold(EveryKeySigns(), SignedBy(signed, s), keys, RoleOf([s], 1))
  {
    SingleIsValid(s);
    hide IsKeyId, SignersValid, SignedEnvelope;
    SignersMeetThreshold(EveryKeySigns(), signed, [s], 1, keys);
    SignaturesInOrder(EveryKeySigns(), signed, [s]);
    assert SignOne(EveryKeySigns(), [s][0], signed) == Ok(Signature(s.keyId, "a"));
    assert SignedEnvelope(EveryKeySigns(), signed, [s]).value.signatures == [Signature(s.keyId, "a")];
  }

  lemma ExampleIsVerified(
    root: int, targets: int, components: int, online: int, targetsPem: string, delegatedPem: string, onlinePem: string,
    now: int)
    requires targetsPem != "" && delegatedPem != "" && onlinePem != ""
    requires now < root && now < targets && now < components
    ensures var x := ExampleRelease(root, targets, components, online, targetsPem, delegatedPem, onlinePem);
            OfflineVerified(EveryKeySigns(), x.trustedRoot, x.targets, x.components, now)
  {
    KeyIdsAreDistinct();
    var x := ExampleRelease(root, targets, components, online, targetsPem, delegatedPem, onlinePem);
    var a, b, c := Signer(KeyId('a'), "root"), Signer(KeyId('b'), targetsPem), Signer(KeyId('c'), onlinePem);
    var d := Signer(b.keyId, delegatedPem);
    SingleIsValid(a);
    SingleIsValid(b);
    SingleIsValid(c);
    SignsAlone(x.trustedRoot.signed, a, x.trustedRoot.signed.keys);
    SignsAlone(x.targets.signed, b, x.trustedRoot.signed.keys);
    SignsAlone(x.components.signed, d, map[b.keyId := delegatedPem]);
    assert RoleOf([d], 1) == RoleOf([b], 1) by { SingleIsValid(d); }
    hide IsKeyId, MeetsThreshold, RolePublished, KeyId, EveryKeySigns, RoleOf;
  }

  lemma ExampleKeys(
    root: int, targets: int, components: int, online: int, targetsPem: string, delegatedPem: string, onlinePem: string)
    requires targetsPem != ""
    ensures var x := ExampleRelease(root, targets, components, online, targetsPem, delegatedPem, onlinePem);
            && x.trustedRoot.signed.RootSigned? && DelegatesComponents(x.targets.signed)
            && RootAuthority(x.trustedRoot.signed) == map[KeyId('a') := "root", KeyId('b') := targetsPem]
            && Delegated(x.targets.signed) == map[KeyId('b') := delegatedPem]
            && OfflineKeys(x.trustedRoot.signed, x.targets.signed) == map[KeyId('a') := "root", KeyId('b') := delegatedPem]
  {
    KeyIdsAreDistinct();
    SingleIsValid(Signer(KeyId('a'), "root"));
    SingleIsValid(Signer(KeyId('b'), targetsPem));
    hide IsKeyId, KeyId, RoleOf, RolePublished, OfflineKeys;
    var x := ExampleRelease(root, targets, components, online, targetsPem, delegatedPem, onlinePem);
    OfflineTable(x.trustedRoot.signed, x.targets.signed);
  }

  lemma OnlineKeyIsReady(keys: map<string, string>, offline: map<string, string>, c: Signer)
    requires IsKeyId(c.keyId) && c.publicKeyPem != "" && c.keyId in keys && keys[c.keyId] == c.publicKeyPem
    requires c.keyId !in offline && forall id :: id in offline ==> offline[id] != "" && offline[id] != c.publicKeyPem
    ensures Ready(EveryKeySigns(), [c], RoleOf([c], 1), keys, offline)
  {
    SingleIsValid(c);
    hide IsKeyId, SignersValid;
  }

  lemma ExampleIsReady(
    root: int, targets: int, components: int, online: int, targetsPem: string, delegatedPem: string, onlinePem: string)
    requires targetsPem != "" && delegatedPem != "" && onlinePem != ""
    requires onlinePem != "root" && onlinePem != delegatedPem
    ensures var x := ExampleRelease(root, targets, components, online, targetsPem, delegatedPem, onlinePem);
            && x.trustedRoot.signed.RootSigned? && DelegatesComponents(x.targets.signed)
            && var offline := OfflineKeys(x.trustedRoot.signed, x.targets.signed);
            && (forall id :: id in offline ==> offline[id] != "")
            && Ready(EveryKeySigns(), [Signer(KeyId('c'), onlinePem)], RoleOf([Signer(KeyId('c'), onlinePem)], 1),
                     x.trustedRoot.signed.keys, offline)
  {
    var x := ExampleRelease(root, targets, components, online, targetsPem, delegatedPem, onlinePem);
    ExampleKeys(root, targets, components, online, targetsPem, delegatedPem, onlinePem);
    KeyIdsAreDistinct();
    hide IsKeyId, KeyId, Ready, OfflineKeys, DelegatesComponents, Ids, RootAuthority, Delegated;
    OnlineKeyIsReady(x.trustedRoot.signed.keys, OfflineKeys(x.trustedRoot.signed, x.targets.signed),
                     Signer(KeyId('c'), onlinePem));
  }

  lemma ExampleIsRefreshed(
    root: int, targets: int, components: int, online: int, targetsPem: string, delegatedPem: string, onlinePem: string,
    now: int)
    requires targetsPem != "" && delegatedPem != "" && onlinePem != ""
    requires now < online <= Sooner(components, targets) <= root
    requires onlinePem != "root" && onlinePem != delegatedPem
    ensures var x := ExampleRelease(root, targets, components, online, targetsPem, delegatedPem, onlinePem);
            Refresh(EveryKeySigns(), x, now).Ok?
  {
    ExampleIsVerified(root, targets, components, online, targetsPem, delegatedPem, onlinePem, now);
    ExampleIsReady(root, targets, components, online, targetsPem, delegatedPem, onlinePem);
    hide IsKeyId, KeyId, OfflineVerified, Ready, OfflineKeys, DelegatesComponents, Ids, Refresh;
    ReadyRefreshes(EveryKeySigns(), ExampleRelease(root, targets, components, online, targetsPem, delegatedPem, onlinePem), now);
  }

  /** The root declares `b` for its targets role and `c` for the online roles, with one and the same
      material; the delegation redeclares `b` with another. The refresh is accepted, and whoever holds
      the online key can sign targets. */
  lemma OverwrittenKeySigns()
    ensures var x := ExampleRelease(100, 90, 90, 80, "shared", "other", "shared");
            && Refresh(EveryKeySigns(), x, 0).Ok?
            && x.trustedRoot.signed.RootSigned? && DelegatesComponents(x.targets.signed)
            && !Separated(EveryKeySigns(), x)
            && KeyId('b') in x.trustedRoot.signed.roles.targets.keyids
            && IsOnline(x, Signer(KeyId('c'), x.trustedRoot.signed.keys[KeyId('b')]))
  {
    var x := ExampleRelease(100, 90, 90, 80, "shared", "other", "shared");
    ExampleIsRefreshed(100, 90, 90, 80, "shared", "other", "shared", 0);
    ExampleKeys(100, 90, 90, 80, "shared", "other", "shared");
    KeyIdsAreDistinct();
    SingleIsValid(Signer(KeyId('b'), "shared"));
    hide IsKeyId, KeyId, OfflineKeys, DelegatesComponents, Refresh, RootAuthority, Delegated;
    var s := Signer(KeyId('c'), "shared");
    assert IsOnline(x, s);
    assert !SharesNothing(EveryKeySigns(), s, RootAuthority(x.trustedRoot.signed));
  }

  // ---- The order of the expiries ----

  /** Timestamp, snapshot, targets and root, and snapshot, components and root, each expire in this order. */
  predicate FullOrder(x: RefreshInput) {
    && x.timestampExpires <= x.snapshotExpires
    && x.snapshotExpires <= x.targets.signed.expires <= x.trustedRoot.signed.expires
    && x.snapshotExpires <= x.components.signed.expires <= x.trustedRoot.signed.expires
  }

  /** An accepted refresh has the full order of expiries exactly when neither offline file outlives the
      root. */
  lemma FullOrderIff(crypto: Crypto, x: RefreshInput, now: int)
    requires Refresh(crypto, x, now).Ok?
    ensures FullOrder(x) <==>
              x.targets.signed.expires <= x.trustedRoot.signed.expires
              && x.components.signed.expires <= x.trustedRoot.signed.expires
  {
    hide OfflineVerified, OnlineError, OfflineKeys, SignedOnline, MeetsThreshold, VersionError;
  }

  /** Only the sooner of the two files is compared with the root: targets may outlive it. */
  lemma TargetsOutliveRoot()
    ensures var x := ExampleRelease(90, 100, 80, 70, "offline", "offline", "online");
            Refresh(EveryKeySigns(), x, 0).Ok? && !FullOrder(x)
  {
    ExampleIsRefreshed(90, 100, 80, 70, "offline", "offline", "online", 0);
  }

  // ---- A key shared by an online and an offline role ----

  /** One key signs both the targets and the timestamp. */
  function SharedKeyInput(): Input {
    var a, b, c := Signer(KeyId('a'), "root"), Signer(KeyId('b'), "snapshot"), Signer(KeyId('c'), "shared");
    Input(1, 1, Expiries(100, 70, 80, 90), Alone(a), Alone(c), Alone(b), Alone(c), true, "release.json",
          TargetFile(1, ""), map[], [])
  }

  function RefreshOf(x: Input, p: Publication, version: int): RefreshInput {
    RefreshInput(p.root, p.targets, p.components, version, version, x.expires.snapshot, x.expires.timestamp,
                 x.timestamp, x.snapshot)
  }

  lemma SharedKeySigners()
    ensures var x := SharedKeyInput();
            && SignersValid(x.root.signers, x.root.threshold) && SignersValid(x.timestamp.signers, x.timestamp.threshold)
            && SignersValid(x.snapshot.signers, x.snapshot.threshold) && SignersValid(x.targets.signers, x.targets.threshold)
            && OneKeyPerId(AllSigners(x)) && AllHonest(EveryKeySigns(), x)
  {
    var x := SharedKeyInput();
    KeyIdsAreDistinct();
    SingleIsValid(x.root.signers[0]);
    SingleIsValid(x.timestamp.signers[0]);
    SingleIsValid(x.snapshot.signers[0]);
    hide IsKeyId, KeyId, SignersValid;
    forall s | s in AllSigners(x)
      ensures s == x.root.signers[0] || s == x.timestamp.signers[0] || s == x.snapshot.signers[0]
    {
    }
    forall s | s in AllSigners(x)
      ensures Honest(EveryKeySigns(), s)
    {
      SignsHonestly(s);
    }
  }

  lemma SignsHonestly(s: Signer)
    requires s.publicKeyPem != ""
    ensures Honest(EveryKeySigns(), s)
  {
  }

  /** It is published, and its own online roles cannot refresh it. */
  lemma SharedKeyIsRefused()
    ensures var crypto, x := EveryKeySigns(), SharedKeyInput();
            && Publish(crypto, x, 0).Ok?
            && Refresh(crypto, RefreshOf(x, Publish(crypto, x, 0).value, 2), 0).Err?
  {
    var crypto, x := EveryKeySigns(), SharedKeyInput();
    SharedKeySigners();
    RoleErrorIff(x.root);
    RoleErrorIff(x.timestamp);
    RoleErrorIff(x.snapshot);
    RoleErrorIff(x.targets);
    hide SignersValid, RoleError, Publish, Refresh, OneKeyPerId, AllSigners, AllHonest, KeyId;
    HonestPublishingSucceedsIff(crypto, x, 0);
    RefreshAcceptsPublicationIff(crypto, x, 0, RefreshOf(x, Publish(crypto, x, 0).value, 2), 0);
    var shared := x.timestamp.signers[0];
    assert shared in x.timestamp.signers && shared in x.root.signers + x.targets.signers;
    assert !Apart(crypto, shared, x.root.signers + x.targets.signers);
  }
}
