/** Recovery: when an activation succeeds, and that retries after any crashes
    converge. */
module Recovery {
  import opened Results
  import opened Text
  import opened HermeticBundle
  import opened InstallRoot
  import opened ActivationPlan
  import opened CrashConsistency
  import opened CrashRuns

  /** No other target's journal stands, and the target is absent or complete. */
  ghost predicate Recoverable(r: Root, target: Pointer) {
    Inv(r) && !ForeignJournal(r, target) && PresentComplete(r, target.releaseDigest)
  }

  lemma InvRecord(r: Root, trust: Option<TrustRoot>, target: Pointer)
    requires Inv(r)
    ensures RecordEffects(r, trust, target).Ok?
  {
    hide CompleteDirectory, HealthError, DistinctDigests;
  }

  predicate BlocksRecordOf(p: Pointer) { BlocksRecord(p.releaseDigest.manifest.components) }

  /** No component claims the record's path, or lies inside it. */
  predicate LeavesRecord(p: Pointer) { SparesRecord(p) && !BlocksRecordOf(p) }

  lemma CompleteIsUnblocked(r: Root, p: Pointer)
    requires Complete(r, p)
    ensures !BlocksRecordOf(p)
  {
    var dir := r.releases[p.releaseDigest];
    VerifyIsNormalForm(RecordIn(dir).value.bundle, Verify(RecordIn(dir).value.bundle).value);
    hide Verify, HealthError, Below;
    RecordHoldsNothing(RECORD);
    forall c | c in p.releaseDigest.manifest.components
      ensures !Below(c.logicalPath, RECORD)
    {
      assert c.logicalPath == RECORD || FileMatches(dir, c);
    }
  }

  lemma InstalledIff(r: Root, d: ReleaseDigest)
    requires Inv(r)
    ensures InstalledBundle(r, d).Ok? <==> Complete(r, PointerFor(d)) && SparesRecord(PointerFor(d))
    ensures InstalledBundle(r, d).Ok? ==> PointerOf(InstalledBundle(r, d).value) == PointerFor(d)
  {
    hide Inv, InstalledBundle, CompleteDirectory, SparesRecord;
    if InstalledBundle(r, d).Ok? {
      InstalledIsIntact(r, d);
    }
    if Complete(r, PointerFor(d)) {
      IntactIff(r, PointerFor(d));
    }
  }

  /** An uninterrupted activation of a valid stage succeeds exactly when no foreign journal stands, the
      release is active already or healthy, and its record has its place: a release already there is
      complete and its record overwrote nothing, or it is absent and no component lies inside the
      record's path. */
  lemma ActivationSucceedsIff(r: Root, host: Host, staging: Staging, staged: Staged, trust: Option<TrustRoot>,
                              gate: GateAnswer)
    requires Inv(r) && TrustValid(trust) && OpenStage(host, staging, staged).Ok?
    ensures var target := PointerOf(OpenStage(host, staging, staged).value);
            ActivatePlan(r, host, staging, staged, trust, gate).result.Ok? <==>
              && !ForeignJournal(r, target)
              && (if target.releaseDigest in r.releases then Complete(r, target) && SparesRecord(target)
                  else !BlocksRecordOf(target))
              && (r.active == Some(target) || HealthOf(gate, target).Ok?)
  {
    var bundle := OpenStage(host, staging, staged).value;
    var target := PointerOf(bundle);
    OpenedBundle(host, staging, staged);
    InvRecord(r, trust, target);
    CopyPasses(r, staged.bundle, bundle);
    InstalledIff(r, target.releaseDigest);
    hide OpenStage, Verify, Inv, HealthError, InstalledBundle, CopyEffects, ApplyAll, PayloadMatches, RecordEffects,
      Complete, SparesRecord, BlocksRecord, RecordBlocked;
    if r.active == Some(target) {
      ActiveIsPresent(r);
    }
  }

  lemma ActiveIsPresent(r: Root)
    requires Inv(r) && r.active.Some?
    ensures r.active.value.releaseDigest in r.releases && Complete(r, r.active.value)
  {
    InvPointer(r);
  }

  // ---- What a finished activation leaves ----

  /** The end state of a successful activation: no journal, the target active, complete, and last in its record. */
  ghost predicate Activated(r: Root, target: Pointer, trust: Option<TrustRoot>) {
    && r.active == Some(target) && r.journal == None && Complete(r, target)
    && (trust.Some? ==> trust.value in r.verified && EndsWith(r.verified[trust.value], target))
  }

  lemma RecordedLast(r: Root, trust: Option<TrustRoot>, target: Pointer)
    requires RecordEffects(r, trust, target).Ok? && trust.Some?
    ensures var r' := ApplyAll(r, RecordEffects(r, trust, target).value);
            trust.value in r'.verified && EndsWith(r'.verified[trust.value], target)
  {
    var es := RecordEffects(r, trust, target).value;
    hide Without;
    if es != [] {
      ApplyCons(r, es[0], []);
      assert es == [es[0]] + [];
    }
  }

  lemma RecordThenCommit(r: Root, before: seq<Effect>, trust: Option<TrustRoot>, j: Journal, r0: Root)
    requires r == ApplyAll(r0, before) && r.verified == r0.verified
    requires Inv(r) && Complete(r, j.target) && !ForeignJournal(r, j.target)
    requires j.state == COMMITTED && HealthError(j.health, j.target) == None
    requires RecordEffects(r0, trust, j.target).Ok?
    ensures Activated(ApplyAll(r0, before + RecordEffects(r0, trust, j.target).value + CommitEffects(j)), j.target, trust)
  {
    var record := RecordEffects(r0, trust, j.target).value;
    assert RecordEffects(r, trust, j.target) == RecordEffects(r0, trust, j.target);
    hide RecordEffects, Inv, HealthError, CompleteDirectory, Safe, SafeAll, CommitEffects;
    RecordSafe(r, trust, j.target);
    SafeFinish(r, record);
    if trust.Some? {
      RecordedLast(r, trust, j.target);
    }
    CommitSafe(ApplyAll(r, record), j);
    ApplyAllConcat(r0, before, record);
    ApplyAllConcat(r0, before + record, CommitEffects(j));
  }

  lemma FreshEnds(r: Root, trust: Option<TrustRoot>, gate: GateAnswer, staged: Bundle, bundle: Bundle)
    requires Inv(r) && Verify(staged) == Ok(bundle)
    requires bundle.releaseDigest !in r.releases && !ForeignJournal(r, PointerOf(bundle))
    requires FreshPlan(r, trust, gate, bundle).result.Ok?
    ensures Activated(ApplyAll(r, FreshPlan(r, trust, gate, bundle).effects), PointerOf(bundle), trust)
  {
    hide Verify, HealthError, CompleteDirectory, Apply, ApplyAll, SafeAll, Safe, CopyEffects, PublishEffects,
      CommitEffects, RecordEffects, RecordBlocked;
    var target, d, cs := PointerOf(bundle), bundle.releaseDigest, bundle.manifest.components;
    var copy := CopyEffects(r, d, cs);
    CopyIsTransactionOnly(r, d, cs);
    TransactionWrites(r, copy);
    var r1 := ApplyAll(r, copy);
    InvFrame(r, r1);
    var health := HealthOf(gate, target).value;
    var prepared := Journal(Activate, PREPARED, target, r.active, health);
    var publish := PublishEffects(d, bundle, prepared);
    PublishSafe(r1, staged, bundle, prepared);
    SafeFinish(r1, publish);
    ApplyAllConcat(r, copy, publish);
    RecordThenCommit(Published(r1, bundle, prepared), copy + publish, trust,
                     Journal(Activate, COMMITTED, target, r.active, health), r);
  }

  lemma ReuseEnds(r: Root, trust: Option<TrustRoot>, gate: GateAnswer, target: Pointer)
    requires Inv(r) && target == PointerFor(target.releaseDigest) && !ForeignJournal(r, target)
    requires ReusePlan(r, trust, gate, target).result.Ok?
    ensures Activated(ApplyAll(r, ReusePlan(r, trust, gate, target).effects), target, trust)
  {
    hide InstalledBundle, Verify, HealthError, CompleteDirectory, Inv, CommitEffects, RecordEffects;
    InstalledIsIntact(r, target.releaseDigest);
    var health := HealthOf(gate, target).value;
    RecordThenCommit(r, [], trust, Journal(Activate, COMMITTED, target, r.active, health), r);
  }

  lemma AlreadyActiveEnds(r: Root, trust: Option<TrustRoot>, target: Pointer)
    requires Inv(r) && r.active == Some(target) && RecordEffects(r, trust, target).Ok?
    ensures Activated(ApplyAll(r, RecordEffects(r, trust, target).value + [RemoveJournal]), target, trust)
  {
    hide RecordEffects, Inv, CompleteDirectory, SafeAll;
    var record := RecordEffects(r, trust, target).value;
    RecordSafe(r, trust, target);
    InvPointer(r);
    if trust.Some? {
      RecordedLast(r, trust, target);
    }
    ApplyAllConcat(r, record, [RemoveJournal]);
    ApplyCons(ApplyAll(r, record), RemoveJournal, []);
    assert [RemoveJournal] == [RemoveJournal] + [];
  }

  /** A successful activation ends with its target active and complete; it ends intact, too, exactly when
      no component claims the record's path. */
  lemma ActivationEnds(r: Root, host: Host, staging: Staging, staged: Staged, trust: Option<TrustRoot>, gate: GateAnswer)
    requires Inv(r) && ActivatePlan(r, host, staging, staged, trust, gate).result.Ok?
    ensures var r' := ApplyAll(r, ActivatePlan(r, host, staging, staged, trust, gate).effects);
            var target := PointerOf(OpenStage(host, staging, staged).value);
            Activated(r', target, trust) && (Intact(r', target) <==> SparesRecord(target))
  {
    var bundle := OpenStage(host, staging, staged).value;
    var target := PointerOf(bundle);
    OpenedBundle(host, staging, staged);
    hide OpenStage, Verify, Inv, FreshPlan, ReusePlan, RecordEffects, InstalledBundle, ApplyAll, Complete, SparesRecord;
    if r.active == Some(target) {
      AlreadyActiveEnds(r, trust, target);
    } else if target.releaseDigest in r.releases {
      ReuseEnds(r, trust, gate, target);
    } else {
      FreshEnds(r, trust, gate, staged.bundle, bundle);
    }
    IntactIff(ApplyAll(r, ActivatePlan(r, host, staging, staged, trust, gate).effects), target);
  }

  // ---- Retries converge ----

  lemma {:induction false} JournalAfter(r0: Root, r: Root, effects: seq<Effect>, target: Pointer)
    requires forall e :: e in effects ==> Aimed(r0, e, target)
    requires !ForeignJournal(r, target)
    ensures !ForeignJournal(ApplyAll(r, effects), target)
    decreases |effects|
  {
    if effects != [] {
      assert Aimed(r0, effects[0], target);
      JournalAfter(r0, Apply(r, effects[0]), effects[1..], target);
    }
  }

  lemma CrashKeepsRecoverable(r: Root, a: Attempt, target: Pointer)
    requires Recoverable(r, target)
    requires a.command.ActivateRelease? && TargetOf(a.command) == Some(target)
    ensures Recoverable(After(r, a), target)
  {
    AttemptKeepsInv(r, a);
    CommandAimed(r, a.command);
    hide Effects, Inv, TargetOf, ApplyAll, Complete, Answer;
    var es := Effects(r, a.command);
    assert forall e :: e in Cut(es, a.survives) ==> e in es;
    JournalAfter(r, r, Cut(es, a.survives), target);
  }

  lemma {:induction false} CrashesKeepRecoverable(r: Root, attempts: seq<Attempt>, target: Pointer)
    requires Recoverable(r, target)
    requires forall a :: a in attempts ==> a.command.ActivateRelease? && TargetOf(a.command) == Some(target)
    ensures Recoverable(Run(r, attempts), target)
    decreases |attempts|
  {
    hide Recoverable, After, TargetOf;
    if attempts != [] {
      CrashKeepsRecoverable(r, attempts[0], target);
      CrashesKeepRecoverable(After(r, attempts[0]), attempts[1..], target);
    }
  }

  /** Activations of one target. */
  predicate Serve(attempts: seq<Attempt>, target: Pointer) {
    forall a :: a in attempts ==> a.command.ActivateRelease? && TargetOf(a.command) == Some(target)
  }

  /** A last activation after the attempts succeeds and leaves the target active, intact and recorded. */
  ghost predicate Converges(r: Root, attempts: seq<Attempt>, last: Command, target: Pointer)
    requires last.ActivateRelease?
  {
    var r1 := Run(r, attempts);
    var r2 := ApplyAll(r1, Effects(r1, last));
    Answer(r1, last).Ok? && Activated(r2, target, last.trust) && Intact(r2, target)
  }

  /** Any number of activations of one target, each crashed after any write, followed by one
      that runs to its end with a healthy answer, ends with that target activated and intact. */
  lemma RetriesConverge(r: Root, attempts: seq<Attempt>, last: Command, target: Pointer)
    requires Recoverable(r, target) && LeavesRecord(target) && Serve(attempts, target)
    requires last.ActivateRelease? && TargetOf(last) == Some(target)
    requires TrustValid(last.trust) && HealthOf(last.gate, target).Ok?
    ensures Converges(r, attempts, last, target)
  {
    CrashesKeepRecoverable(r, attempts, target);
    var r1 := Run(r, attempts);
    OpenedBundle(last.host, last.staging, last.staged);
    ActivationSucceedsIff(r1, last.host, last.staging, last.staged, last.trust, last.gate);
    hide OpenStage, ActivatePlan, Inv, Complete, Activated, Run, ApplyAll, SparesRecord, BlocksRecord, HealthOf, Intact;
    ActivationEnds(r1, last.host, last.staging, last.staged, last.trust, last.gate);
  }

  /** The condition is exact: from a recoverable disk every such run converges exactly when no component
      claims the record's path or lies inside it. */
  lemma RetriesConvergeIff(r: Root, last: Command, target: Pointer)
    requires Recoverable(r, target)
    requires last.ActivateRelease? && TargetOf(last) == Some(target)
    requires TrustValid(last.trust) && HealthOf(last.gate, target).Ok?
    ensures (forall attempts :: Serve(attempts, target) ==> Converges(r, attempts, last, target)) <==> LeavesRecord(target)
  {
    hide Recoverable, TargetOf, LeavesRecord, Converges, Serve, HealthOf;
    if LeavesRecord(target) {
      forall attempts | Serve(attempts, target)
        ensures Converges(r, attempts, last, target)
      {
        RetriesConverge(r, attempts, last, target);
      }
    } else {
      NoneServe(target);
      if Converges(r, [], last, target) {
        ConvergedLeavesRecord(r, last, target);
      }
    }
  }

  lemma NoneServe(target: Pointer)
    ensures Serve([], target)
  {
  }

  lemma ConvergedLeavesRecord(r: Root, last: Command, target: Pointer)
    requires Recoverable(r, target)
    requires last.ActivateRelease? && TargetOf(last) == Some(target) && TrustValid(last.trust)
    requires Converges(r, [], last, target)
    ensures LeavesRecord(target)
  {
    ActivationSucceedsIff(r, last.host, last.staging, last.staged, last.trust, last.gate);
    hide OpenStage, ActivatePlan, Inv, ApplyAll, SparesRecord, BlocksRecord, HealthOf, Complete;
    var r2 := ApplyAll(r, Effects(r, last));
    assert Run(r, []) == r;
    CompleteIsUnblocked(r2, target);
    IntactIff(r2, target);
  }

  /** From any history without a purge, crashed anywhere, a target that no foreign journal
      blocks is reached by the same retries. */
  lemma ConvergesFromAnyHistory(history: seq<Attempt>, attempts: seq<Attempt>, last: Command, target: Pointer)
    requires forall a :: a in history ==> !Purging(a.command)
    requires !ForeignJournal(Run(EMPTY_ROOT, history), target)
    requires LeavesRecord(target) && Serve(attempts, target)
    requires last.ActivateRelease? && TargetOf(last) == Some(target)
    requires TrustValid(last.trust) && HealthOf(last.gate, target).Ok?
    ensures Converges(Run(EMPTY_ROOT, history), attempts, last, target)
  {
    EmptyRootSound();
    RunKeepsInv(EMPTY_ROOT, history);
    assert PresentComplete(EMPTY_ROOT, target.releaseDigest);
    hide Inv, TargetOf, Run, Converges, PresentComplete, LeavesRecord, Serve;
    RetriesConverge(Run(EMPTY_ROOT, history), attempts, last, target);
  }

  // ---- A release whose record overwrote a component ----

  /** Once such a release is published, every operation on it is refused without a write, after any
      further operations: only a purge gets rid of it. */
  lemma OverwrittenStaysRefused(r: Root, attempts: seq<Attempt>, command: Command, target: Pointer)
    requires Inv(r) && Complete(r, target) && !SparesRecord(target)
    requires forall a :: a in attempts ==> !Purging(a.command)
    requires !command.Uninstall? && TargetOf(command) == Some(target)
    ensures var r1 := Run(r, attempts);
            Complete(r1, target) && Answer(r1, command).Err? && Effects(r1, command) == []
  {
    hide Inv, CompleteDirectory, SparesRecord, Run, InstalledBundle;
    RunKeepsInv(r, attempts);
    var r1 := Run(r, attempts);
    assert PresentComplete(r, target.releaseDigest) && PresentComplete(r1, target.releaseDigest);
    IntactIff(r1, target);
    RefusedWhenBroken(r1, command, target);
  }

  lemma RefusedWhenBroken(r: Root, command: Command, target: Pointer)
    requires target.releaseDigest in r.releases && InstalledBundle(r, target.releaseDigest).Err?
    requires !command.Uninstall? && TargetOf(command) == Some(target)
    ensures Answer(r, command).Err? && Effects(r, command) == []
  {
    hide InstalledBundle, OpenStage, HealthOf, FreshPlan, RecordEffects, ForeignJournal;
  }

  // ---- A purge that dies half way ----

  function Purges(order: seq<Unlink>): seq<Effect> {
    seq(|order|, i requires 0 <= i < |order| => Purge(order[i]))
  }

  /** What is left of one release directory after some entries were removed, in any order. */
  ghost predicate LeftOver(r: Root, r1: Root, removed: seq<Unlink>, d: ReleaseDigest) {
    && r1.active == r.active && r1.journal == r.journal
    && (d in r1.releases <==> d in r.releases && ReleaseDirectory(d) !in removed)
    && (d in r1.releases ==>
         && (forall p :: p in r1.releases[d] <==> p in r.releases[d] && ReleaseFile(d, p) !in removed)
         && (forall p :: p in r1.releases[d] ==> r1.releases[d][p] == r.releases[d][p]))
  }

  lemma UnlinkLeaves(r: Root, u: Unlink, d: ReleaseDigest)
    ensures LeftOver(r, Apply(r, Purge(u)), [u], d)
  {
  }

  lemma LeftOverJoins(r: Root, r1: Root, r2: Root, a: seq<Unlink>, b: seq<Unlink>, d: ReleaseDigest)
    requires LeftOver(r, r1, a, d) && LeftOver(r1, r2, b, d)
    ensures LeftOver(r, r2, a + b, d)
  {
  }

  lemma {:induction false} PurgedDirectory(r: Root, order: seq<Unlink>, d: ReleaseDigest)
    ensures LeftOver(r, ApplyAll(r, Purges(order)), order, d)
    decreases |order|
  {
    if order != [] {
      hide LeftOver;
      assert Purges(order) == [Purge(order[0])] + Purges(order[1..]);
      ApplyCons(r, Purge(order[0]), Purges(order[1..]));
      hide Apply, ApplyAll, Purges;
      var r1 := Apply(r, Purge(order[0]));
      UnlinkLeaves(r, order[0], d);
      PurgedDirectory(r1, order[1..], d);
      LeftOverJoins(r, r1, ApplyAll(r1, Purges(order[1..])), [order[0]], order[1..], d);
      assert order == [order[0]] + order[1..];
    }
  }

  /** The entries removed include the release's record or one of the files its bundle lists. */
  ghost predicate Damages(removed: seq<Unlink>, d: ReleaseDigest, components: seq<Component>) {
    ReleaseFile(d, RECORD) in removed || exists c :: c in components && ReleaseFile(d, c.logicalPath) in removed
  }

  lemma AfterCutPurge(r: Root, order: seq<Unlink>, k: nat, d: ReleaseDigest)
    requires 3 <= k <= 3 + |order|
    ensures var base := r.(active := None, journal := None, transactions := map[]);
            After(r, Attempt(Uninstall(Some(order)), k)) == ApplyAll(base, Purges(order[..k - 3]))
  {
    var head, removed := [RemoveActive, RemoveJournal, RemoveTransactions], order[..k - 3];
    var es := UninstallEffects(Some(order));
    assert es == head + (Purges(order) + [PurgeAll]);
    assert es[..k] == head + Purges(removed);
    ApplyAllConcat(r, head, Purges(removed));
    ApplyCons(r, RemoveActive, [RemoveJournal, RemoveTransactions]);
    ApplyCons(Apply(r, RemoveActive), RemoveJournal, [RemoveTransactions]);
    ApplyCons(Apply(Apply(r, RemoveActive), RemoveJournal), RemoveTransactions, []);
    assert head == [RemoveActive] + [RemoveJournal, RemoveTransactions];
    assert [RemoveJournal, RemoveTransactions] == [RemoveJournal] + [RemoveTransactions];
    assert [RemoveTransactions] == [RemoveTransactions] + [];
  }

  /** A damaged directory is incomplete and an undamaged one is not. */
  lemma DamagedIff(r: Root, r1: Root, removed: seq<Unlink>, target: Pointer)
    requires Intact(r, target) && target.releaseDigest in r1.releases
    requires LeftOver(r.(active := r1.active, journal := r1.journal), r1, removed, target.releaseDigest)
    ensures var d := target.releaseDigest;
            && (InstalledBundle(r1, d).Ok? <==> !Damages(removed, d, d.manifest.components))
            && (InstalledBundle(r1, d).Err? ==>
                 InstalledBundle(r1, d) == Err(if ReleaseFile(d, RECORD) in removed then "VES_ROLLBACK_TARGET_INVALID"
                                               else "VES_ACTIVATION_INTEGRITY"))
  {
    var d := target.releaseDigest;
    var dir, left := r.releases[d], r1.releases[d];
    VerifyIsNormalForm(RecordIn(dir).value.bundle, Verify(RecordIn(dir).value.bundle).value);
    hide Verify, HealthError, Below;
    FilesLeft(dir, left, removed, d, d.manifest.components);
    hide FilesMatch, IsFile;
  }

  lemma FilesLeft(dir: Directory, left: Directory, removed: seq<Unlink>, d: ReleaseDigest, components: seq<Component>)
    requires FilesMatch(dir, components) && RecordIn(dir).Some?
    requires forall p :: p in left <==> p in dir && ReleaseFile(d, p) !in removed
    requires forall p :: p in left ==> left[p] == dir[p]
    ensures RecordIn(left) == if ReleaseFile(d, RECORD) in removed then None else RecordIn(dir)
    ensures FilesMatch(left, components) <==> forall c :: c in components ==> ReleaseFile(d, c.logicalPath) !in removed
  {
    hide Below;
    forall c | c in components
      ensures FileMatches(left, c) <==> ReleaseFile(d, c.logicalPath) !in removed
    {
      assert FileMatches(dir, c);
    }
    hide FileMatches;
  }

  /** After a purge cut before its end, whatever it removed and in whatever order, activating a healthy
      release succeeds exactly when its directory is gone or was left undamaged; otherwise the activation
      fails without a write, so it cannot repair the release. */
  lemma InterruptedPurgeBlocks(r: Root, order: seq<Unlink>, k: nat, target: Pointer, command: Command)
    requires Inv(r) && Intact(r, target) && 3 <= k <= 3 + |order|
    requires command.ActivateRelease? && TargetOf(command) == Some(target) && TrustValid(command.trust)
    requires HealthOf(command.gate, target).Ok?
    ensures var d := target.releaseDigest;
            var removed, r1 := order[..k - 3], After(r, Attempt(Uninstall(Some(order)), k));
            && (Answer(r1, command).Ok? <==>
                 ReleaseDirectory(d) in removed || !Damages(removed, d, d.manifest.components))
            && (Answer(r1, command).Err? ==>
                 && Effects(r1, command) == []
                 && Answer(r1, command) == Err(if ReleaseFile(d, RECORD) in removed then "VES_ROLLBACK_TARGET_INVALID"
                                               else "VES_ACTIVATION_INTEGRITY"))
  {
    hide OpenStage, Verify, HealthError, InstalledBundle, Inv, After, Damages, ApplyAll, Purges, PresentComplete,
      FilesMatch, CompleteDirectory, SparesRecord, BlocksRecord;
    var d, removed := target.releaseDigest, order[..k - 3];
    var r1 := After(r, Attempt(Uninstall(Some(order)), k));
    var base := r.(active := None, journal := None, transactions := map[]);
    AttemptKeepsInv(r, Attempt(Uninstall(Some(order)), k));
    AfterCutPurge(r, order, k, d);
    PurgedDirectory(base, removed, d);
    CompleteIsUnblocked(r, target);
    if d in r1.releases {
      DamagedIff(r, r1, removed, target);
    }
    InstalledIff(r1, d);
    ActivationSucceedsIff(r1, command.host, command.staging, command.staged, command.trust, command.gate);
  }

  /** A purge that finishes heals it: every release is recoverable again. */
  lemma FinishedPurgeHeals(r: Root, order: seq<Unlink>, target: Pointer)
    ensures Recoverable(ApplyAll(r, UninstallEffects(Some(order))), target)
  {
    var es := UninstallEffects(Some(order));
    var r1 := ApplyAll(r, [RemoveActive, RemoveJournal, RemoveTransactions]);
    PurgeEnds(r1, order);
    ApplyAllConcat(r, [RemoveActive, RemoveJournal, RemoveTransactions], PurgeEffects(order));
    ApplyCons(r, RemoveActive, [RemoveJournal, RemoveTransactions]);
    ApplyCons(Apply(r, RemoveActive), RemoveJournal, [RemoveTransactions]);
    ApplyCons(Apply(Apply(r, RemoveActive), RemoveJournal), RemoveTransactions, []);
    assert [RemoveActive, RemoveJournal, RemoveTransactions] == [RemoveActive] + [RemoveJournal, RemoveTransactions];
    assert [RemoveJournal, RemoveTransactions] == [RemoveJournal] + [RemoveTransactions];
    assert [RemoveTransactions] == [RemoveTransactions] + [];
  }

  lemma {:induction false} PurgeEnds(r: Root, order: seq<Unlink>)
    ensures var r' := ApplyAll(r, PurgeEffects(order));
            r' == r.(releases := map[], verified := map[])
    decreases |order|
  {
    if order == [] {
      assert PurgeEffects(order) == [PurgeAll] + [];
      ApplyCons(r, PurgeAll, []);
    } else {
      PurgeEnds(Apply(r, Purge(order[0])), order[1..]);
      assert PurgeEffects(order) == [Purge(order[0])] + PurgeEffects(order[1..]);
      ApplyCons(r, Purge(order[0]), PurgeEffects(order[1..]));
    }
  }
}
