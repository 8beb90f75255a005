/** What a launch may run, whichever path it takes: only the pinned release, and over
    the network only the stage that carries it. */
module LaunchDecision {
  import opened Results
  import opened HermeticBundle
  import opened InstallRoot
  import opened ActivationPlan
  import opened CrashConsistency
  import opened CrashRuns
  import opened VerifiedRecord
  import opened ActivationManager
  import opened ActivationGates
  import opened Launcher

  /** Nothing local answers for the query: there is no anchored trust root, or nothing is retained. */
  predicate AsksNetwork(r: Root, anchored: bool, q: Query) { !anchored || RetainedRelease(r, q) == Ok(None) }

  /** A launch asks the network exactly when nothing local answers, and gives up when the record is broken. */
  lemma NetworkIff(
    r: Root, host: Host, anchored: bool, q: Query, gate: GateAnswer, staging: Staging, staged: Staged, budget: nat)
    ensures var l := LaunchOf(r, host, anchored, q, gate, staging, staged, budget);
            && (l.network <==> AsksNetwork(r, anchored, q))
            && (anchored && RetainedRelease(r, q).Err? ==> l.answer == Some(Err(RetainedRelease(r, q).code)) && l.disk == r)
  {
    hide RetainedRelease, RollbackPlan, ActivatePlan, ApplyAll, Launcher.Target;
  }

  /** What the network staged is activated only if it is the pinned release by name and version; anything
      else is refused over an untouched disk. */
  lemma StrangerIsRefused(
    r: Root, host: Host, anchored: bool, q: Query, gate: GateAnswer, staging: Staging, staged: Staged, budget: nat)
    requires AsksNetwork(r, anchored, q)
    requires staged.releaseId != q.releaseId || staged.bundle.manifest.semanticVersion != q.semanticVersion
    ensures var l := LaunchOf(r, host, anchored, q, gate, staging, staged, budget);
            l.answer == Some(Err("VES_VESTRA_ACTIVATION_UNAVAILABLE")) && l.disk == r
  {
    hide RetainedRelease;
  }

  /** And the pinned one is handed to the activation, bound to the trust root, cut where the process dies. */
  lemma PinnedIsActivated(
    r: Root, host: Host, anchored: bool, q: Query, gate: GateAnswer, staging: Staging, staged: Staged, budget: nat)
    requires AsksNetwork(r, anchored, q)
    requires staged.releaseId == q.releaseId && staged.bundle.manifest.semanticVersion == q.semanticVersion
    ensures var plan := ActivatePlan(r, host, staging, staged, Some(q.trustRoot), gate);
            var l := LaunchOf(r, host, anchored, q, gate, staging, staged, budget);
            && l.disk == ApplyAll(r, Cut(plan.effects, budget))
            && (l.answer == None <==> budget < |plan.effects|)
            && (budget >= |plan.effects| && plan.result.Err? ==> l.answer == Some(Err(plan.result.code)))
  {
    hide RetainedRelease, ActivatePlan, ApplyAll, Launcher.Target;
  }

  lemma InstalledPointer(r: Root, d: ReleaseDigest)
    ensures InstalledBundle(r, d).Ok? ==> PointerOf(InstalledBundle(r, d).value) == PointerFor(d)
  {
    InstalledNames(r, d);
    hide InstalledBundle;
  }

  lemma ResolvedIsOwn(r: Root)
    requires ResolveActive(r).Ok?
    ensures ResolveActive(r).value == PointerFor(ResolveActive(r).value.releaseDigest)
    ensures r.active == Some(ResolveActive(r).value) && InstalledBundle(r, ResolveActive(r).value.releaseDigest).Ok?
  {
    InstalledPointer(r, r.active.value.releaseDigest);
    hide InstalledBundle;
  }

  lemma OpenedVersion(host: Host, staging: Staging, staged: Staged)
    requires OpenStage(host, staging, staged).Ok?
    ensures staged.releaseDigest.manifest.releaseId == staged.releaseId
    ensures staged.releaseDigest.manifest.semanticVersion == staged.bundle.manifest.semanticVersion
  {
    StageOpensIff(host, staging, staged);
    hide OpenStage, Holds, Lists, NormalizeAll, ClosureError, IsSafeId, IsSemver, IsNodeVersion;
  }

  /** Whatever disk it starts from and whichever path it takes, a launch that runs a release runs the pinned
      one, active and verified on the disk it leaves. */
  lemma LaunchedIsPinned(
    r: Root, host: Host, anchored: bool, q: Query, gate: GateAnswer, staging: Staging, staged: Staged, budget: nat,
    p: Pointer)
    requires LaunchOf(r, host, anchored, q, gate, staging, staged, budget).answer == Some(Ok(p))
    ensures p.releaseId == q.releaseId && p.semanticVersion == q.semanticVersion
    ensures var l := LaunchOf(r, host, anchored, q, gate, staging, staged, budget);
            l.disk.active == Some(p) && InstalledBundle(l.disk, p.releaseDigest).Ok?
  {
    hide RetainedRelease, RollbackPlan, ActivatePlan, ApplyAll, ResolveActive, InstalledBundle;
    var l := LaunchOf(r, host, anchored, q, gate, staging, staged, budget);
    if ResolveActive(l.disk).Ok? {
      ResolvedIsOwn(l.disk);
    }
    if AsksNetwork(r, anchored, q) && ActivatePlan(r, host, staging, staged, Some(q.trustRoot), gate).result.Ok? {
      ActivatedWasOpened(r, host, staging, staged, Some(q.trustRoot), gate);
      OpenedVersion(host, staging, staged);
    }
  }

  /** A launch that succeeds was of a release that brings exactly one node runtime. */
  lemma LaunchedHasRuntime(
    r: Root, host: Host, anchored: bool, q: Query, gate: GateAnswer, staging: Staging, staged: Staged, budget: nat,
    p: Pointer)
    requires LaunchOf(r, host, anchored, q, gate, staging, staged, budget).answer == Some(Ok(p))
    ensures var components := if AsksNetwork(r, anchored, q) then staged.bundle.manifest.components
                              else p.releaseDigest.manifest.components;
            exists i :: 0 <= i < |components| && OnlyRuntime(components, i)
  {
    hide RollbackPlan, ActivatePlan, ApplyAll, ResolveActive, RetainedRelease, Runtimes;
    var i := OneRuntime(if AsksNetwork(r, anchored, q) then staged.bundle.manifest.components
                        else p.releaseDigest.manifest.components);
  }

  predicate OnlyRuntime(components: seq<Component>, i: nat)
    requires i < |components|
  {
    && components[i].kind == "node-runtime"
    && forall j :: 0 <= j < |components| && j != i ==> components[j].kind != "node-runtime"
  }

  lemma {:induction false} OneRuntime(components: seq<Component>) returns (i: nat)
    requires |Runtimes(components)| == 1
    ensures i < |components| && OnlyRuntime(components, i)
  {
    if components[0].kind == "node-runtime" {
      NoRuntime(components[1..]);
      assert components == [components[0]] + components[1..];
      i := 0;
    } else {
      var k := OneRuntime(components[1..]);
      assert forall j :: 0 < j < |components| ==> components[j] == components[1..][j - 1];
      i := k + 1;
    }
  }

  lemma {:induction false} NoRuntime(components: seq<Component>)
    requires Runtimes(components) == []
    ensures forall j :: 0 <= j < |components| ==> components[j].kind != "node-runtime"
  {
    if components != [] {
      NoRuntime(components[1..]);
      assert forall j :: 0 < j < |components| ==> components[j] == components[1..][j - 1];
    }
  }

  lemma ActivatedWasOpened(
    r: Root, host: Host, staging: Staging, staged: Staged, trust: Option<TrustRoot>, gate: GateAnswer)
    requires ActivatePlan(r, host, staging, staged, trust, gate).result.Ok?
    ensures OpenStage(host, staging, staged).Ok?
  {
    hide OpenStage, AlreadyActivePlan, ReusePlan, FreshPlan;
  }

  // ---- Without an anchor the record has no say ----

  /** The same disk, but for the records of verified releases. */
  predicate SameButRecord(a: Root, b: Root) { a == b.(verified := a.verified) }

  predicate KeepsRecords(e: Effect) { !e.Purge? && !e.PurgeAll? }

  lemma {:induction false} SameEffects(a: Root, b: Root, effects: seq<Effect>)
    requires SameButRecord(a, b) && forall e :: e in effects ==> KeepsRecords(e)
    ensures SameButRecord(ApplyAll(a, effects), ApplyAll(b, effects))
    decreases |effects|
  {
    if effects != [] {
      assert KeepsRecords(effects[0]);
      SameEffects(Apply(a, effects[0]), Apply(b, effects[0]), effects[1..]);
    }
  }

  lemma {:induction false} RecordsAside(a: Root, effects: seq<Effect>)
    requires forall e :: e in effects ==> e.RecordReleases?
    ensures SameButRecord(ApplyAll(a, effects), a)
    decreases |effects|
  {
    if effects != [] {
      assert effects[0] in effects;
      RecordsAside(Apply(a, effects[0]), effects[1..]);
    }
  }

  lemma RecordWrites(r: Root, trust: Option<TrustRoot>, target: Pointer)
    requires Inv(r)
    ensures RecordEffects(r, trust, target).Ok?
    ensures forall e :: e in RecordEffects(r, trust, target).value ==> e.RecordReleases?
  {
    hide CompleteDirectory, HealthError, DistinctDigests;
  }

  lemma SameAround(a: Root, b: Root, before: seq<Effect>, x: seq<Effect>, y: seq<Effect>, after: seq<Effect>)
    requires SameButRecord(a, b)
    requires forall e :: e in before || e in after ==> KeepsRecords(e)
    requires (forall e :: e in x ==> e.RecordReleases?) && (forall e :: e in y ==> e.RecordReleases?)
    ensures SameButRecord(ApplyAll(a, before + x + after), ApplyAll(b, before + y + after))
  {
    hide ApplyAll;
    SameEffects(a, b, before);
    ApplyAllConcat(a, before, x);
    ApplyAllConcat(b, before, y);
    var a1, b1 := ApplyAll(a, before), ApplyAll(b, before);
    RecordsAside(a1, x);
    RecordsAside(b1, y);
    ApplyAllConcat(a, before + x, after);
    ApplyAllConcat(b, before + y, after);
    SameEffects(ApplyAll(a1, x), ApplyAll(b1, y), after);
  }

  /** Two plans from disks that differ in their records alone: one answer, and the same end but for records. */
  ghost predicate SamePlan(a: Root, p: Plan, b: Root, q: Plan) {
    p.result == q.result && SameButRecord(ApplyAll(a, p.effects), ApplyAll(b, q.effects))
  }

  lemma SameCommit(
    a: Root, b: Root, before: seq<Effect>, trust: Option<TrustRoot>, target: Pointer, health: Health, reused: bool)
    requires SameButRecord(a, b) && Inv(a) && Inv(b) && forall e :: e in before ==> KeepsRecords(e)
    ensures SamePlan(a, CommitPlan(a, before, trust, target, health, reused),
                     b, CommitPlan(b, before, trust, target, health, reused))
  {
    hide Inv, RecordEffects, ApplyAll, SameButRecord;
    RecordWrites(a, trust, target);
    RecordWrites(b, trust, target);
    ActiveIsShared(a, b);
    SameAround(a, b, before, RecordEffects(a, trust, target).value, RecordEffects(b, trust, target).value,
               CommitEffects(Journal(Operation.Activate, COMMITTED, target, a.active, health)));
  }

  lemma ActiveIsShared(a: Root, b: Root)
    requires SameButRecord(a, b)
    ensures a.active == b.active && a.journal == b.journal && a.releases == b.releases && a.transactions == b.transactions
  {
  }

  lemma InstalledIsShared(a: Root, b: Root, d: ReleaseDigest)
    requires SameButRecord(a, b)
    ensures InstalledBundle(a, d) == InstalledBundle(b, d)
  {
    hide Verify, FilesMatch, RecordIn;
  }

  lemma SameReuse(a: Root, b: Root, trust: Option<TrustRoot>, gate: GateAnswer, target: Pointer)
    requires SameButRecord(a, b) && Inv(a) && Inv(b)
    ensures SamePlan(a, ReusePlan(a, trust, gate, target), b, ReusePlan(b, trust, gate, target))
  {
    InstalledIsShared(a, b, target.releaseDigest);
    SameNothing(a, b);
    hide Inv, InstalledBundle, HealthOf, CommitPlan, ApplyAll, SameButRecord;
    if InstalledBundle(a, target.releaseDigest).Ok? {
      var p := PointerOf(InstalledBundle(a, target.releaseDigest).value);
      if HealthOf(gate, p).Ok? {
        SameCommit(a, b, [], trust, target, HealthOf(gate, p).value, true);
      }
    }
  }

  lemma SameNothing(a: Root, b: Root)
    requires SameButRecord(a, b)
    ensures SameButRecord(ApplyAll(a, []), ApplyAll(b, []))
    ensures forall code :: SamePlan(a, Plan([], Err(code)), b, Plan([], Err(code)))
  {
  }

  lemma SameRefusal(a: Root, b: Root, effects: seq<Effect>, code: string)
    requires SameButRecord(ApplyAll(a, effects), ApplyAll(b, effects))
    ensures SamePlan(a, Plan(effects, Err(code)), b, Plan(effects, Err(code)))
  {
  }

  lemma SameActive(a: Root, b: Root, trust: Option<TrustRoot>, target: Pointer)
    requires SameButRecord(a, b) && Inv(a) && Inv(b)
    ensures SamePlan(a, AlreadyActivePlan(a, trust, target), b, AlreadyActivePlan(b, trust, target))
  {
    InstalledIsShared(a, b, target.releaseDigest);
    SameNothing(a, b);
    ActiveIsShared(a, b);
    RecordWrites(a, trust, target);
    RecordWrites(b, trust, target);
    hide Inv, InstalledBundle, ApplyAll, SameButRecord, RecordEffects;
    var x, y := RecordEffects(a, trust, target).value, RecordEffects(b, trust, target).value;
    SameAround(a, b, [], x, y, [RemoveJournal]);
    assert [] + x + [RemoveJournal] == x + [RemoveJournal] && [] + y + [RemoveJournal] == y + [RemoveJournal];
  }

  lemma CopyKeepsRecords(r: Root, d: ReleaseDigest, components: seq<Component>)
    ensures forall e :: e in CopyEffects(r, d, components) ==> KeepsRecords(e)
  {
    CopyIsTransactionOnly(r, d, components);
  }

  lemma PublishKeepsRecords(d: ReleaseDigest, bundle: Bundle, prepared: Journal)
    ensures forall e :: e in PublishEffects(d, bundle, prepared) ==> KeepsRecords(e)
  {
  }

  lemma SameFresh(a: Root, b: Root, trust: Option<TrustRoot>, gate: GateAnswer, bundle: Bundle)
    requires SameButRecord(a, b) && Inv(a) && Inv(b)
    ensures SamePlan(a, FreshPlan(a, trust, gate, bundle), b, FreshPlan(b, trust, gate, bundle))
  {
    hide Inv, HealthOf, CommitPlan, ApplyAll, SameButRecord, CopyEffects, FilesMatch, RecordBlocked, PayloadMatches,
      SamePlan, PublishEffects, Payload;
    var d, cs := bundle.releaseDigest, bundle.manifest.components;
    var copy := CopyEffects(a, d, cs);
    SameCopy(a, b, d, cs);
    ActiveIsShared(a, b);
    SameRefusal(a, b, copy, "VES_ACTIVATION_INTEGRITY");
    SameRefusal(a, b, copy, "VES_ACTIVATION_FAILED");
    match HealthOf(gate, PointerOf(bundle)) {
      case Err(code) => SameRefusal(a, b, copy, code);
      case Ok(health) =>
        var prepared := Journal(Operation.Activate, PREPARED, PointerOf(bundle), a.active, health);
        PublishKeepsRecords(d, bundle, prepared);
        SameCommit(a, b, copy + PublishEffects(d, bundle, prepared), trust, PointerOf(bundle), health, false);
    }
  }

  lemma SameCopy(a: Root, b: Root, d: ReleaseDigest, components: seq<Component>)
    requires SameButRecord(a, b)
    ensures var copy := CopyEffects(a, d, components);
            && copy == CopyEffects(b, d, components) && (forall e :: e in copy ==> KeepsRecords(e))
            && SameButRecord(ApplyAll(a, copy), ApplyAll(b, copy))
            && Payload(ApplyAll(a, copy), d) == Payload(ApplyAll(b, copy), d)
            && (PayloadMatches(ApplyAll(a, copy), d, components) <==> PayloadMatches(ApplyAll(b, copy), d, components))
  {
    hide ApplyAll, FilesMatch;
    CopyKeepsRecords(a, d, components);
    SameEffects(a, b, CopyEffects(a, d, components));
  }

  lemma SameOpened(a: Root, b: Root, trust: Option<TrustRoot>, gate: GateAnswer, bundle: Bundle)
    requires SameButRecord(a, b) && Inv(a) && Inv(b)
    ensures SamePlan(a, OpenedPlan(a, trust, gate, bundle), b, OpenedPlan(b, trust, gate, bundle))
  {
    hide Inv, FreshPlan, ReusePlan, AlreadyActivePlan, SamePlan, ApplyAll;
    var target := PointerOf(bundle);
    SameNothing(a, b);
    if ForeignJournal(a, target) {
    } else if a.active == Some(target) {
      SameActive(a, b, trust, target);
    } else if target.releaseDigest in a.releases {
      SameReuse(a, b, trust, gate, target);
    } else {
      SameFresh(a, b, trust, gate, bundle);
    }
  }

  /** An activation once its stage is open. */
  function OpenedPlan(r: Root, trust: Option<TrustRoot>, gate: GateAnswer, bundle: Bundle): Plan {
    var target := PointerOf(bundle);
    if ForeignJournal(r, target) then Plan([], Err("VES_ACTIVATION_RECOVERY_REQUIRED"))
    else if r.active == Some(target) then AlreadyActivePlan(r, trust, target)
    else if target.releaseDigest in r.releases then ReusePlan(r, trust, gate, target)
    else FreshPlan(r, trust, gate, bundle)
  }

  lemma ActivationOpened(
    r: Root, host: Host, staging: Staging, staged: Staged, trust: Option<TrustRoot>, gate: GateAnswer)
    ensures TrustValid(trust) && OpenStage(host, staging, staged).Ok? ==>
              ActivatePlan(r, host, staging, staged, trust, gate)
              == OpenedPlan(r, trust, gate, OpenStage(host, staging, staged).value)
    ensures !TrustValid(trust) ==>
              ActivatePlan(r, host, staging, staged, trust, gate) == Plan([], Err("VES_ACTIVATION_PROVENANCE_INVALID"))
    ensures TrustValid(trust) && OpenStage(host, staging, staged).Err? ==>
              ActivatePlan(r, host, staging, staged, trust, gate) == Plan([], Err(OpenStage(host, staging, staged).code))
  {
    hide TrustValid, OpenStage, FreshPlan, ReusePlan, AlreadyActivePlan;
  }

  /** The records hold no sway over an activation that is not cut: same answer, same disk but for them. */
  lemma SameActivation(
    a: Root, b: Root, host: Host, staging: Staging, staged: Staged, trust: Option<TrustRoot>, gate: GateAnswer)
    requires SameButRecord(a, b) && Inv(a) && Inv(b)
    ensures SamePlan(a, ActivatePlan(a, host, staging, staged, trust, gate),
                     b, ActivatePlan(b, host, staging, staged, trust, gate))
  {
    hide Inv, OpenStage, OpenedPlan, SameButRecord, ApplyAll, TrustValid, SamePlan, ActivatePlan;
    SameNothing(a, b);
    ActivationOpened(a, host, staging, staged, trust, gate);
    ActivationOpened(b, host, staging, staged, trust, gate);
    if OpenStage(host, staging, staged).Ok? {
      SameOpened(a, b, trust, gate, OpenStage(host, staging, staged).value);
    }
  }

  /** An unanchored launch that ends, on two disks that differ in their records alone: whatever the records
      say of the query, the answer is the same, and so is all else on the disk. */
  lemma UnanchoredIgnoresRecord(
    a: Root, b: Root, host: Host, q: Query, gate: GateAnswer, staging: Staging, staged: Staged, budget: nat)
    requires SameButRecord(a, b) && Inv(a) && Inv(b)
    requires LaunchOf(a, host, false, q, gate, staging, staged, budget).answer.Some?
    requires LaunchOf(b, host, false, q, gate, staging, staged, budget).answer.Some?
    ensures var x, y := LaunchOf(a, host, false, q, gate, staging, staged, budget),
                        LaunchOf(b, host, false, q, gate, staging, staged, budget);
            x.network && y.network && x.answer == y.answer && SameButRecord(x.disk, y.disk)
  {
    hide ActivatePlan, ApplyAll, ResolveActive, Inv, SameButRecord;
    SameActivation(a, b, host, staging, staged, Some(q.trustRoot), gate);
    var x, y := LaunchOf(a, host, false, q, gate, staging, staged, budget),
                LaunchOf(b, host, false, q, gate, staging, staged, budget);
    if SameButRecord(x.disk, y.disk) {
      SameResolved(x.disk, y.disk);
    }
  }

  lemma SameResolved(a: Root, b: Root)
    requires SameButRecord(a, b)
    ensures ResolveActive(a) == ResolveActive(b)
  {
    if a.active.Some? {
      InstalledIsShared(a, b, a.active.value.releaseDigest);
    }
    hide InstalledBundle;
  }
}
