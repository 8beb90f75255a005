/** The install root on disk, and the single writes a manager makes to it.
    Every write is one atomic file-system step; a crash falls between two. */
module InstallRoot {
  import opened Results
  import opened Text
  import opened HermeticBundle

  type TrustRoot = string

  /** The file that makes a directory of components a release, and the one that makes it a stage. */
  const RECORD := "release.json"
  const RECEIPT := "staged-release.json"

  datatype Check = Check(name: string, status: string, evidenceDigest: string)

  datatype Launcher = Launcher(
    componentId: string,
    exitCode: int,
    semanticVersion: string,
    releaseDigest: ReleaseDigest,
    normalizedBehaviorDigest: string)

  datatype Health = Health(checks: seq<Check>, launchers: seq<Launcher>)

  /** A release pointer; a verified-release entry has the same three fields. */
  datatype Pointer = Pointer(releaseId: string, releaseDigest: ReleaseDigest, semanticVersion: string)

  datatype ReleaseRecord = ReleaseRecord(bundle: Bundle, health: Health)

  datatype Projection = Projection(componentId: string, logicalPath: string, contentDigest: string, sizeBytes: int)

  datatype Staged = Staged(
    stageOf: ReleaseDigest,
    releaseId: string,
    releaseDigest: ReleaseDigest,
    platform: string,
    arch: string,
    bundle: Bundle,
    components: seq<Projection>,
    activationAllowed: bool)

  /** A file: bytes as an integrity check observes them, or what the program itself wrote. A record or
      receipt repeats the digests of its components, so it is taken to have none of them itself. */
  datatype FileState =
    | Bytes(sizeBytes: int, contentDigest: string)
    | Record(record: ReleaseRecord)
    | StageReceipt(staged: Staged)

  /** The files under one directory, by their paths in it. */
  type Directory = map<string, FileState>

  /** There is a file of this name; a directory of the name is none. */
  predicate IsFile(dir: Directory, path: string) {
    path in dir && forall q :: q in dir ==> !Below(q, path)
  }

  function RecordIn(dir: Directory): Option<ReleaseRecord> {
    if IsFile(dir, RECORD) && dir[RECORD].Record? then Some(dir[RECORD].record) else None
  }

  /** The name of the record is taken by a directory, which no file can be renamed onto. */
  predicate RecordBlocked(dir: Directory) { exists q :: q in dir && Below(q, RECORD) }

  datatype Operation = Activate | Rollback

  datatype JournalState = PREPARED | PUBLISHED | COMMITTED

  datatype Journal = Journal(
    operation: Operation,
    state: JournalState,
    target: Pointer,
    previous: Option<Pointer>,
    health: Health)

  /** `transactions` maps a transaction directory to its payload, if it has one. */
  datatype Root = Root(
    active: Option<Pointer>,
    journal: Option<Journal>,
    releases: map<ReleaseDigest, Directory>,
    transactions: map<ReleaseDigest, Option<Directory>>,
    verified: map<TrustRoot, seq<Pointer>>)

  const EMPTY_ROOT := Root(None, None, map[], map[], map[])

  /** One directory entry removed while a tree is being purged. */
  datatype Unlink =
    | ReleaseFile(digest: ReleaseDigest, path: string)
    | ReleaseDirectory(digest: ReleaseDigest)
    | VerifiedFile(trustRoot: TrustRoot)

  datatype Effect =
    | MakeTransaction(digest: ReleaseDigest)
    | ClearPayload(digest: ReleaseDigest)
    | MakePayload(digest: ReleaseDigest)
    | CopyFile(digest: ReleaseDigest, path: string, file: FileState)
    | WriteRecord(digest: ReleaseDigest, record: ReleaseRecord)
    | WriteJournal(journal: Journal)
    | Publish(digest: ReleaseDigest)
    | RecordReleases(trustRoot: TrustRoot, entries: seq<Pointer>)
    | SwitchPointer(target: Pointer)
    | RemoveTransaction(digest: ReleaseDigest)
    | RemoveJournal
    | RemoveActive
    | RemoveTransactions
    | Purge(entry: Unlink)
    | PurgeAll

  function ApplyUnlink(r: Root, u: Unlink): Root {
    match u
    case ReleaseFile(d, path) =>
      if d !in r.releases then r
      else r.(releases := r.releases[d := r.releases[d] - {path}])
    case ReleaseDirectory(d) => r.(releases := r.releases - {d})
    case VerifiedFile(t) => r.(verified := r.verified - {t})
  }

  function Apply(r: Root, e: Effect): Root {
    match e
    case MakeTransaction(d) => if d in r.transactions then r else r.(transactions := r.transactions[d := None])
    case ClearPayload(d) => r.(transactions := r.transactions[d := None])
    case MakePayload(d) => r.(transactions := r.transactions[d := Some(map[])])
    case CopyFile(d, path, file) =>
      if d !in r.transactions || r.transactions[d].None? then r
      else r.(transactions := r.transactions[d := Some(r.transactions[d].value[path := file])])
    case WriteRecord(d, record) =>
      if d !in r.transactions || r.transactions[d].None? || RecordBlocked(r.transactions[d].value) then r
      else r.(transactions := r.transactions[d := Some(r.transactions[d].value[RECORD := Record(record)])])
    case WriteJournal(journal) => r.(journal := Some(journal))
    case Publish(d) =>
      if d !in r.transactions || r.transactions[d].None? then r
      else r.(releases := r.releases[d := r.transactions[d].value], transactions := r.transactions[d := None])
    case RecordReleases(t, entries) => r.(verified := r.verified[t := entries])
    case SwitchPointer(target) => r.(active := Some(target))
    case RemoveTransaction(d) => r.(transactions := r.transactions - {d})
    case RemoveJournal => r.(journal := None)
    case RemoveActive => r.(active := None)
    case RemoveTransactions => r.(transactions := map[])
    case Purge(entry) => ApplyUnlink(r, entry)
    case PurgeAll => r.(releases := map[], verified := map[])
  }

  function ApplyAll(r: Root, effects: seq<Effect>): Root
    decreases |effects|
  {
    if effects == [] then r else ApplyAll(Apply(r, effects[0]), effects[1..])
  }

  lemma {:induction false} ApplyAllConcat(r: Root, a: seq<Effect>, b: seq<Effect>)
    ensures ApplyAll(r, a + b) == ApplyAll(ApplyAll(r, a), b)
    decreases |a|
  {
    hide Apply;
    if a == [] {
      assert a + b == b;
    } else {
      ApplyAllConcat(Apply(r, a[0]), a[1..], b);
      assert (a + b)[1..] == a[1..] + b;
    }
  }

  lemma ApplyCons(r: Root, e: Effect, rest: seq<Effect>)
    ensures ApplyAll(r, [e] + rest) == ApplyAll(Apply(r, e), rest)
  {
    hide Apply;
    assert ([e] + rest)[1..] == rest;
  }

  lemma ApplyFour(r: Root, a: Effect, b: Effect, c: Effect, d: Effect)
    ensures ApplyAll(r, [a, b, c, d]) == Apply(Apply(Apply(Apply(r, a), b), c), d)
  {
    hide Apply;
    assert [a, b, c, d] == [a] + ([b] + ([c] + ([d] + [])));
    ApplyCons(r, a, [b] + ([c] + ([d] + [])));
    ApplyCons(Apply(r, a), b, [c] + ([d] + []));
    ApplyCons(Apply(Apply(r, a), b), c, [d] + []);
    ApplyCons(Apply(Apply(Apply(r, a), b), c), d, []);
  }
}
