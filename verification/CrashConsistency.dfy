/** What every crash leaves behind: the invariant of the install root over all
    runs of activate, rollback and uninstall, each cut after any write. */
module CrashConsistency {
  import opened Results
  import opened Text
  import opened CodeUnits
  import opened HermeticBundle
  import opened InstallRoot
  import opened ActivationPlan

  /** The only pointer a release digest can have. */
  function PointerFor(d: ReleaseDigest): Pointer {
    Pointer(d.manifest.releaseId, d, d.manifest.semanticVersion)
  }

  /** Every component but one that the record stands in the place of. */
  predicate OthersMatch(dir: Directory, components: seq<Component>) {
    forall c :: c in components && c.logicalPath != RECORD ==> FileMatches(dir, c)
  }

  ghost predicate CompleteDirectory(dir: Directory, d: ReleaseDigest) {
    && RecordIn(dir).Some?
    && Verify(RecordIn(dir).value.bundle).Ok?
    && Verify(RecordIn(dir).value.bundle).value.releaseDigest == d
    && OthersMatch(dir, Verify(RecordIn(dir).value.bundle).value.manifest.components)
    && HealthError(RecordIn(dir).value.health, PointerFor(d)) == None
  }

  /** Installed under its record, with accepted health evidence and the bytes of every component except
      one at the record's own path. */
  ghost predicate Complete(r: Root, p: Pointer) {
    p.releaseDigest in r.releases && p == PointerFor(p.releaseDigest) &&
    CompleteDirectory(r.releases[p.releaseDigest], p.releaseDigest)
  }

  /** Complete, with the bytes of every component. */
  ghost predicate Intact(r: Root, p: Pointer) {
    Complete(r, p) && FilesMatch(r.releases[p.releaseDigest], p.releaseDigest.manifest.components)
  }

  /** No component of the release claims the record's path. */
  predicate SparesRecord(p: Pointer) {
    forall c :: c in p.releaseDigest.manifest.components ==> c.logicalPath != RECORD
  }

  /** A complete release is intact exactly when its record overwrote no component. */
  lemma IntactIff(r: Root, p: Pointer)
    requires Complete(r, p)
    ensures Intact(r, p) <==> SparesRecord(p)
    ensures InstalledBundle(r, p.releaseDigest).Ok? <==> SparesRecord(p)
    ensures SparesRecord(p) ==> PointerOf(InstalledBundle(r, p.releaseDigest).value) == p
    ensures !SparesRecord(p) ==> InstalledBundle(r, p.releaseDigest) == Err("VES_ACTIVATION_INTEGRITY")
  {
    var dir, d := r.releases[p.releaseDigest], p.releaseDigest;
    var b := Verify(RecordIn(dir).value.bundle).value;
    VerifyIsNormalForm(RecordIn(dir).value.bundle, b);
    hide Verify, HealthError, IsFile;
    assert b.manifest == d.manifest;
    if !SparesRecord(p) {
      var c :| c in d.manifest.components && c.logicalPath == RECORD;
      assert dir[RECORD].Record?;
      assert !FileMatches(dir, c);
    }
  }

  ghost predicate JournalSound(r: Root, j: Journal) {
    && HealthError(j.health, j.target) == None
    && j.target == PointerFor(j.target.releaseDigest)
    && (j.state == COMMITTED ==> r.active == None || r.active == Some(j.target))
    && (j.state != PREPARED || j.operation == Rollback ==> Complete(r, j.target))
  }

  ghost predicate RecordHealthy(dir: Directory, d: ReleaseDigest) {
    RECORD in dir && dir[RECORD].Record? ==> HealthError(dir[RECORD].record.health, PointerFor(d)) == None
  }

  ghost predicate Inv(r: Root) {
    && (r.active.Some? ==> Complete(r, r.active.value))
    && (r.journal.Some? ==> JournalSound(r, r.journal.value))
    && (forall t :: t in r.verified ==> DistinctDigests(r.verified[t]))
    && (forall d :: d in r.releases ==> RecordHealthy(r.releases[d], d))
  }

  /** A release directory, once it exists, is complete. */
  ghost predicate PresentComplete(r: Root, d: ReleaseDigest) {
    d in r.releases ==> Complete(r, PointerFor(d))
  }

  ghost predicate AllComplete(r: Root) {
    forall d :: PresentComplete(r, d)
  }

  /** What no write but a purge takes back: complete releases stay, and what appears is complete. */
  ghost predicate ReleasesGrow(r: Root, r': Root) {
    r.releases.Keys <= r'.releases.Keys && forall d :: PresentComplete(r, d) ==> PresentComplete(r', d)
  }

  // ---- Safe writes ----

  ghost predicate Safe(r: Root, e: Effect) {
    match e
    case WriteJournal(j) =>
      && HealthError(j.health, j.target) == None && j.target == PointerFor(j.target.releaseDigest)
      && (j.state == COMMITTED ==> r.active == Some(j.target))
      && (j.state != PREPARED || j.operation == Rollback ==> Complete(r, j.target))
    case Publish(d) =>
      d !in r.releases && d in r.transactions && r.transactions[d].Some? && CompleteDirectory(r.transactions[d].value, d)
    case RecordReleases(_, entries) => DistinctDigests(entries)
    case SwitchPointer(p) => Complete(r, p) && !ForeignJournal(r, p)
    case Purge(_) => r.active == None && r.journal == None
    case PurgeAll => r.active == None && r.journal == None
    case _ => true
  }

  /** The invariant depends on the releases, the pointer, the journal and the record. */
  lemma InvFrame(r: Root, r': Root)
    requires Inv(r) && r'.releases == r.releases && r'.verified == r.verified
    requires r'.active == None || r'.active == r.active
    requires r'.journal == None || r'.journal == r.journal
    ensures Inv(r') && ReleasesGrow(r, r')
  {
    hide CompleteDirectory, HealthError, DistinctDigests;
  }

  lemma PublishStep(r: Root, d: ReleaseDigest)
    requires Inv(r) && Safe(r, Publish(d))
    ensures Inv(Apply(r, Publish(d))) && ReleasesGrow(r, Apply(r, Publish(d)))
  {
    hide Verify, OthersMatch, HealthError, DistinctDigests, IsFile;
    var r' := Apply(r, Publish(d));
    assert r'.releases == r.releases[d := r.transactions[d].value];
  }

  lemma UnlinkStep(r: Root, u: Unlink)
    requires Inv(r) && Safe(r, Purge(u))
    ensures Inv(Apply(r, Purge(u)))
  {
    hide CompleteDirectory, HealthError, DistinctDigests;
  }

  lemma SafeStep(r: Root, e: Effect)
    requires Inv(r) && Safe(r, e)
    ensures Inv(Apply(r, e))
    ensures !IsPurge(e) ==> ReleasesGrow(r, Apply(r, e))
  {
    hide CompleteDirectory, HealthError, DistinctDigests;
    match e {
      case Publish(d) => PublishStep(r, d);
      case Purge(u) => UnlinkStep(r, u);
      case WriteJournal(_) =>
      case RecordReleases(_, _) =>
      case SwitchPointer(_) =>
      case PurgeAll =>
      case _ => InvFrame(r, Apply(r, e));
    }
  }

  predicate IsPurge(e: Effect) { e.Purge? || e.PurgeAll? }

  ghost predicate SafeAll(r: Root, effects: seq<Effect>)
    decreases |effects|
  {
    effects == [] || (Safe(r, effects[0]) && SafeAll(Apply(r, effects[0]), effects[1..]))
  }

  predicate NoPurge(effects: seq<Effect>) { forall e :: e in effects ==> !IsPurge(e) }

  lemma {:induction false} SafePrefix(r: Root, effects: seq<Effect>, k: nat)
    requires Inv(r) && SafeAll(r, effects) && k <= |effects|
    ensures Inv(ApplyAll(r, effects[..k]))
    ensures NoPurge(effects) ==> ReleasesGrow(r, ApplyAll(r, effects[..k]))
    decreases k
  {
    hide Apply, Safe, Inv, PresentComplete;
    if k > 0 {
      SafeStep(r, effects[0]);
      SafePrefix(Apply(r, effects[0]), effects[1..], k - 1);
      assert effects[..k][1..] == effects[1..][..k - 1];
    }
  }

  lemma {:induction false} SafeConcat(r: Root, a: seq<Effect>, b: seq<Effect>)
    requires SafeAll(r, a) && SafeAll(ApplyAll(r, a), b)
    ensures SafeAll(r, a + b)
    decreases |a|
  {
    hide Apply, Safe;
    if a == [] {
      assert a + b == b;
    } else {
      SafeConcat(Apply(r, a[0]), a[1..], b);
      assert (a + b)[1..] == a[1..] + b;
    }
  }

  // ---- Writes inside the transaction directory ----

  predicate TransactionOnly(e: Effect) {
    e.MakeTransaction? || e.ClearPayload? || e.MakePayload? || e.CopyFile? || e.WriteRecord?
  }

  lemma {:induction false} TransactionWrites(r: Root, effects: seq<Effect>)
    requires forall e :: e in effects ==> TransactionOnly(e)
    ensures SafeAll(r, effects)
    ensures ApplyAll(r, effects) == r.(transactions := ApplyAll(r, effects).transactions)
    decreases |effects|
  {
    if effects != [] {
      assert TransactionOnly(effects[0]);
      TransactionWrites(Apply(r, effects[0]), effects[1..]);
    }
  }

  lemma CopyIsTransactionOnly(r: Root, d: ReleaseDigest, components: seq<Component>)
    ensures forall e :: e in CopyEffects(r, d, components) ==> TransactionOnly(e)
  {
  }

  lemma DistinctTail(components: seq<Component>)
    requires DistinctKeys(components, Path) && components != []
    ensures DistinctKeys(components[1..], Path)
    ensures forall c :: c in components[1..] ==> c.logicalPath != components[0].logicalPath
  {
    forall i, j | 0 <= i < j < |components[1..]|
      ensures Path(components[1..][i]) != Path(components[1..][j])
    {
      assert Path(components[i + 1]) != Path(components[j + 1]);
    }
    forall c | c in components[1..]
      ensures c.logicalPath != components[0].logicalPath
    {
      var i :| 0 < i < |components| && components[i] == c;
      assert Path(components[0]) != Path(components[i]);
    }
  }

  predicate IsPath(components: seq<Component>, p: string) { exists c :: c in components && c.logicalPath == p }

  /** After the copies, the payload holds every copied file and what it held before, and no more. */
  lemma {:induction false} CopiedFiles(r: Root, d: ReleaseDigest, components: seq<Component>)
    requires d in r.transactions && r.transactions[d].Some?
    requires DistinctKeys(components, Path)
    ensures var r' := ApplyAll(r, CopyFiles(d, components));
            && d in r'.transactions && r'.transactions[d].Some?
            && (forall p :: p in Payload(r', d) <==> p in Payload(r, d) || IsPath(components, p))
            && (forall c :: c in components ==>
                 c.logicalPath in Payload(r', d) && Payload(r', d)[c.logicalPath] == Bytes(c.sizeBytes, c.contentDigest))
            && (forall p :: p in Payload(r, d) && !IsPath(components, p) ==> Payload(r', d)[p] == Payload(r, d)[p])
    decreases |components|
  {
    if components != [] {
      var c := components[0];
      var copy := CopyFile(d, c.logicalPath, Bytes(c.sizeBytes, c.contentDigest));
      var r1 := Apply(r, copy);
      assert Payload(r1, d) == Payload(r, d)[c.logicalPath := Bytes(c.sizeBytes, c.contentDigest)];
      assert CopyFiles(d, components) == [copy] + CopyFiles(d, components[1..]);
      ApplyCons(r, copy, CopyFiles(d, components[1..]));
      DistinctTail(components);
      hide Apply, ApplyAll, CopyFiles, DistinctKeys;
      CopiedFiles(r1, d, components[1..]);
      assert components == [c] + components[1..];
      assert !IsPath(components[1..], c.logicalPath);
      assert forall p :: IsPath(components, p) <==> p == c.logicalPath || IsPath(components[1..], p);
    }
  }

  lemma SafeCons(r: Root, e: Effect, rest: seq<Effect>)
    requires Safe(r, e) && SafeAll(Apply(r, e), rest)
    ensures SafeAll(r, [e] + rest)
  {
    hide Apply, Safe;
    assert ([e] + rest)[1..] == rest;
  }

  lemma SafeFour(r: Root, a: Effect, b: Effect, c: Effect, d: Effect)
    requires Safe(r, a) && Safe(Apply(r, a), b) && Safe(Apply(Apply(r, a), b), c)
    requires Safe(Apply(Apply(Apply(r, a), b), c), d)
    ensures SafeAll(r, [a, b, c, d])
  {
    hide Apply, Safe;
    assert [a, b, c, d] == [a] + ([b] + ([c] + ([d] + [])));
    assert SafeAll(Apply(Apply(Apply(Apply(r, a), b), c), d), []);
    SafeCons(Apply(Apply(Apply(r, a), b), c), d, []);
    SafeCons(Apply(Apply(r, a), b), c, [d] + []);
    SafeCons(Apply(r, a), b, [c] + ([d] + []));
    SafeCons(r, a, [b] + ([c] + ([d] + [])));
  }

  lemma ClearThenMake(r: Root, d: ReleaseDigest)
    ensures Apply(Apply(r, ClearPayload(d)), MakePayload(d)) ==
            r.(transactions := r.transactions[d := Some(map[])])
    ensures Apply(Apply(Apply(r, MakeTransaction(d)), ClearPayload(d)), MakePayload(d)) ==
            r.(transactions := r.transactions[d := Some(map[])])
  {
    var empty := Some(map[]);
    assert r.transactions[d := None][d := empty] == r.transactions[d := empty];
    assert r.transactions[d := None][d := None][d := empty] == r.transactions[d := empty];
  }

  lemma CopyStart(r: Root, d: ReleaseDigest)
    ensures ApplyAll(r, PrepareEffects(r, d)) == r.(transactions := r.transactions[d := Some(map[])])
  {
    hide Apply;
    ClearThenMake(r, d);
    var two := [ClearPayload(d)] + ([MakePayload(d)] + []);
    assert [ClearPayload(d), MakePayload(d)] == two;
    var start := if d in r.transactions then r else Apply(r, MakeTransaction(d));
    if d in r.transactions {
      assert [] + two == two;
    } else {
      ApplyCons(r, MakeTransaction(d), two);
    }
    ApplyCons(start, ClearPayload(d), [MakePayload(d)] + []);
    ApplyCons(Apply(start, ClearPayload(d)), MakePayload(d), []);
  }

  /** No component lies inside another, as on any disk that holds them all. */
  predicate Flat(components: seq<Component>) {
    forall c, e :: c in components && e in components ==> !Below(c.logicalPath, e.logicalPath)
  }

  lemma MatchingIsFlat(dir: Directory, components: seq<Component>)
    requires FilesMatch(dir, components)
    ensures Flat(components)
  {
    hide Below;
    forall c, e | c in components && e in components
      ensures !Below(c.logicalPath, e.logicalPath)
    {
      assert FileMatches(dir, c) && FileMatches(dir, e);
    }
  }

  /** Some component lies inside the record's path. */
  predicate BlocksRecord(components: seq<Component>) { exists c :: c in components && Below(c.logicalPath, RECORD) }

  /** A copy of a verified stage always passes the integrity check that follows it, and leaves room for
      the record unless a component lies inside its path. */
  lemma CopyPasses(r: Root, staged: Bundle, bundle: Bundle)
    requires Verify(staged) == Ok(bundle) && Flat(bundle.manifest.components)
    ensures var cs := bundle.manifest.components;
            var r' := ApplyAll(r, CopyEffects(r, bundle.releaseDigest, cs));
            && PayloadMatches(r', bundle.releaseDigest, cs)
            && (RecordBlocked(Payload(r', bundle.releaseDigest)) <==> BlocksRecord(cs))
  {
    hide Apply, ApplyAll, Build, Below;
    var cs, d := bundle.manifest.components, bundle.releaseDigest;
    assert Build(staged.manifest) == Ok(bundle);
    AcceptedBundleIsClosed(staged.manifest, bundle);
    CopyStart(r, d);
    ApplyAllConcat(r, PrepareEffects(r, d), CopyFiles(d, cs));
    CopiedFiles(r.(transactions := r.transactions[d := Some(map[])]), d, cs);
    var payload := Payload(ApplyAll(r, CopyEffects(r, d, cs)), d);
    CopiedMatch(payload, cs);
  }

  lemma CopiedMatch(payload: Directory, components: seq<Component>)
    requires Flat(components)
    requires forall p :: p in payload <==> IsPath(components, p)
    requires forall c :: c in components ==>
               c.logicalPath in payload && payload[c.logicalPath] == Bytes(c.sizeBytes, c.contentDigest)
    ensures FilesMatch(payload, components) && (RecordBlocked(payload) <==> BlocksRecord(components))
  {
    hide Below;
    forall c | c in components
      ensures FileMatches(payload, c)
    {
      assert IsPath(components, c.logicalPath);
      forall q | q in payload
        ensures !Below(q, c.logicalPath)
      {
        var e :| e in components && e.logicalPath == q;
      }
    }
    if BlocksRecord(components) {
      var c :| c in components && Below(c.logicalPath, RECORD);
      assert IsPath(components, c.logicalPath);
    }
  }

  // ---- Each plan is safe ----

  lemma VerifiedPointer(value: Bundle, b: Bundle)
    requires Verify(value) == Ok(b)
    ensures PointerOf(b) == PointerFor(b.releaseDigest)
  {
    VerifyIsNormalForm(value, b);
  }

  lemma {:induction false} WithoutMembers(entries: seq<Pointer>, d: ReleaseDigest)
    ensures forall e :: e in Without(entries, d) <==> e in entries && e.releaseDigest != d
  {
    if entries != [] {
      WithoutMembers(entries[1..], d);
      assert entries == [entries[0]] + entries[1..];
    }
  }

  lemma {:induction false} WithoutKeepsDistinct(entries: seq<Pointer>, d: ReleaseDigest)
    requires DistinctDigests(entries)
    ensures DistinctDigests(Without(entries, d))
  {
    if entries != [] {
      var rest := Without(entries[1..], d);
      WithoutKeepsDistinct(entries[1..], d);
      WithoutMembers(entries[1..], d);
      forall i | 0 <= i < |rest|
        ensures rest[i].releaseDigest != entries[0].releaseDigest
      {
        assert rest[i] in entries[1..];
        var j :| 0 < j < |entries| && entries[j] == rest[i];
      }
    }
  }

  lemma RecordSafe(r: Root, trust: Option<TrustRoot>, target: Pointer)
    requires RecordEffects(r, trust, target).Ok?
    ensures var es := RecordEffects(r, trust, target).value;
            && SafeAll(r, es) && NoPurge(es)
            && ApplyAll(r, es) == r.(verified := ApplyAll(r, es).verified)
  {
    var es := RecordEffects(r, trust, target).value;
    if es != [] {
      var entries := VerifiedReleases(r, trust.value).value;
      WithoutKeepsDistinct(entries, target.releaseDigest);
      WithoutMembers(entries, target.releaseDigest);
      hide Without;
      assert es[1..] == [];
    }
  }

  lemma CommitSafe(r: Root, j: Journal)
    requires Inv(r) && Complete(r, j.target) && !ForeignJournal(r, j.target)
    requires j.state == COMMITTED && HealthError(j.health, j.target) == None
    ensures SafeAll(r, CommitEffects(j)) && NoPurge(CommitEffects(j))
    ensures ApplyAll(r, CommitEffects(j)) ==
            r.(active := Some(j.target), journal := None, transactions := r.transactions - {j.target.releaseDigest})
  {
    hide Verify, FilesMatch, HealthError, CompleteDirectory;
    var es := CommitEffects(j);
    ApplyFour(r, es[0], es[1], es[2], es[3]);
    SafeFour(r, es[0], es[1], es[2], es[3]);
  }

  /** The disk after a prepared payload was renamed into place. */
  function Published(r: Root, bundle: Bundle, prepared: Journal): Root
    requires bundle.releaseDigest in r.transactions && r.transactions[bundle.releaseDigest].Some?
  {
    var d := bundle.releaseDigest;
    var payload := r.transactions[d].value[RECORD := Record(ReleaseRecord(bundle, prepared.health))];
    r.(releases := r.releases[d := payload],
       transactions := r.transactions[d := None],
       journal := Some(prepared.(state := PUBLISHED)))
  }

  lemma PublishState(r: Root, bundle: Bundle, prepared: Journal)
    requires bundle.releaseDigest in r.transactions && r.transactions[bundle.releaseDigest].Some?
    requires !RecordBlocked(Payload(r, bundle.releaseDigest))
    ensures ApplyAll(r, PublishEffects(bundle.releaseDigest, bundle, prepared)) == Published(r, bundle, prepared)
  {
    var d := bundle.releaseDigest;
    var es := PublishEffects(d, bundle, prepared);
    ApplyFour(r, es[0], es[1], es[2], es[3]);
    var payload := r.transactions[d].value[RECORD := Record(ReleaseRecord(bundle, prepared.health))];
    hide ApplyAll, RecordBlocked;
    assert r.transactions[d := Some(payload)][d := None] == r.transactions[d := None];
  }

  lemma RecordHoldsNothing(p: string)
    ensures !Below(RECORD, p)
  {
    assert forall i :: 0 <= i < |RECORD| ==> RECORD[i] != '/';
    assert (p + "/")[|p|] == '/';
  }

  lemma RecordWritten(dir: Directory, record: ReleaseRecord, components: seq<Component>)
    requires FilesMatch(dir, components) && !RecordBlocked(dir)
    ensures var dir' := dir[RECORD := Record(record)];
            RecordIn(dir') == Some(record) && OthersMatch(dir', components)
  {
    hide Below;
    var dir' := dir[RECORD := Record(record)];
    RecordHoldsNothing(RECORD);
    forall c | c in components && c.logicalPath != RECORD
      ensures FileMatches(dir', c)
    {
      assert FileMatches(dir, c);
      RecordHoldsNothing(c.logicalPath);
    }
  }

  lemma PublishedComplete(r: Root, staged: Bundle, bundle: Bundle, prepared: Journal)
    requires Verify(staged) == Ok(bundle)
    requires PayloadMatches(r, bundle.releaseDigest, bundle.manifest.components)
    requires !RecordBlocked(Payload(r, bundle.releaseDigest))
    requires prepared.target == PointerOf(bundle) && HealthError(prepared.health, prepared.target) == None
    ensures Complete(Published(r, bundle, prepared), prepared.target)
    ensures CompleteDirectory(Published(r, bundle, prepared).releases[bundle.releaseDigest], bundle.releaseDigest)
  {
    VerifyIsNormalForm(staged, bundle);
    RecordWritten(Payload(r, bundle.releaseDigest), ReleaseRecord(bundle, prepared.health), bundle.manifest.components);
    hide Verify, FilesMatch, OthersMatch, HealthError, RecordIn, RecordBlocked;
  }

  lemma PublishSafe(r: Root, staged: Bundle, bundle: Bundle, prepared: Journal)
    requires Inv(r) && Verify(staged) == Ok(bundle)
    requires bundle.releaseDigest !in r.releases
    requires PayloadMatches(r, bundle.releaseDigest, bundle.manifest.components)
    requires !RecordBlocked(Payload(r, bundle.releaseDigest))
    requires prepared.target == PointerOf(bundle) && !ForeignJournal(r, prepared.target)
    requires prepared.state == PREPARED && prepared.operation == Activate
    requires HealthError(prepared.health, prepared.target) == None
    ensures var es := PublishEffects(bundle.releaseDigest, bundle, prepared);
            SafeAll(r, es) && NoPurge(es) && ApplyAll(r, es) == Published(r, bundle, prepared)
    ensures Complete(Published(r, bundle, prepared), prepared.target)
  {
    hide Verify, FilesMatch, HealthError, CompleteDirectory, Inv, ApplyAll, SafeAll, Apply, RecordBlocked;
    PublishState(r, bundle, prepared);
    PublishedComplete(r, staged, bundle, prepared);
    PublishSteps(r, bundle, prepared);
    var es := PublishEffects(bundle.releaseDigest, bundle, prepared);
    SafeFour(r, es[0], es[1], es[2], es[3]);
  }

  lemma PublishSteps(r: Root, bundle: Bundle, prepared: Journal)
    requires bundle.releaseDigest !in r.releases
    requires bundle.releaseDigest in r.transactions && r.transactions[bundle.releaseDigest].Some?
    requires prepared.state == PREPARED && prepared.operation == Activate
    requires prepared.target.releaseDigest == bundle.releaseDigest
    requires HealthError(prepared.health, prepared.target) == None
    requires !RecordBlocked(Payload(r, bundle.releaseDigest))
    requires Complete(Published(r, bundle, prepared), prepared.target)
    ensures var es := PublishEffects(bundle.releaseDigest, bundle, prepared);
            var r1 := Apply(r, es[0]);
            var r2 := Apply(r1, es[1]);
            Safe(r, es[0]) && Safe(r1, es[1]) && Safe(r2, es[2]) && Safe(Apply(r2, es[2]), es[3])
  {
    hide HealthError, CompleteDirectory, RecordBlocked;
  }

  /** Record, then commit, from any disk on which the target is installed. */
  lemma RecordThenCommitSafe(r: Root, trust: Option<TrustRoot>, j: Journal)
    requires Inv(r) && Complete(r, j.target) && !ForeignJournal(r, j.target)
    requires j.state == COMMITTED && HealthError(j.health, j.target) == None
    requires RecordEffects(r, trust, j.target).Ok?
    ensures var record := RecordEffects(r, trust, j.target).value;
            SafeAll(r, record + CommitEffects(j)) && NoPurge(record + CommitEffects(j))
  {
    hide HealthError, CompleteDirectory, Apply;
    var record := RecordEffects(r, trust, j.target).value;
    RecordSafe(r, trust, j.target);
    SafePrefix(r, record, |record|);
    assert record[..|record|] == record;
    CommitSafe(ApplyAll(r, record), j);
    SafeConcat(r, record, CommitEffects(j));
  }

  lemma InstalledIsIntact(r: Root, d: ReleaseDigest)
    requires Inv(r) && InstalledBundle(r, d).Ok?
    ensures PointerOf(InstalledBundle(r, d).value) == PointerFor(d)
    ensures Complete(r, PointerFor(d)) && SparesRecord(PointerFor(d))
  {
    VerifiedPointer(RecordIn(r.releases[d]).value.bundle, InstalledBundle(r, d).value);
    hide Verify, IsFile;
    assert RecordHealthy(r.releases[d], d);
    IntactIff(r, PointerFor(d));
  }

  lemma OpenedBundle(host: Host, staging: Staging, staged: Staged)
    requires OpenStage(host, staging, staged).Ok?
    ensures var b := OpenStage(host, staging, staged).value;
            && Verify(staged.bundle) == Ok(b) && PointerOf(b) == PointerFor(b.releaseDigest)
            && b.manifest == b.releaseDigest.manifest && Flat(b.manifest.components)
  {
    var b := OpenStage(host, staging, staged).value;
    VerifyIsNormalForm(staged.bundle, b);
    hide Verify, ReceiptMatches;
    MatchingIsFlat(staging[b.releaseDigest], b.manifest.components);
  }
}
