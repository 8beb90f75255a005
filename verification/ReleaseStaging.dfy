/** Staging a whole release into one directory: every component in turn, each over
    its own partial file, and the receipt at the end. */
module ReleaseStaging {
  import opened Results
  import opened Text
  import opened ResumableStaging
  import InstallRoot

  /** A component of the release, with the content the source serves for it. */
  datatype Item = Item(path: string, content: seq<byte>)

  /** The files of the stage by path. */
  type Stage = map<string, seq<byte>>

  /** One attempt: what happens at each component in turn, and whether it lives to write the receipt. */
  datatype Visit = Visit(tries: seq<Try>, reachesReceipt: bool)

  function PartOf(path: string): string { path + ".part" }

  function FileAt(stage: Stage, path: string): Option<seq<byte>> {
    if path in stage then Some(stage[path]) else None
  }

  function FilesFor(stage: Stage, path: string): Files { Files(FileAt(stage, PartOf(path)), FileAt(stage, path)) }

  function Put(stage: Stage, path: string, file: Option<seq<byte>>): Stage {
    if file.Some? then stage[path := file.value] else stage - {path}
  }

  function PutBack(stage: Stage, path: string, files: Files): Stage {
    Put(Put(stage, PartOf(path), files.partial), path, files.final)
  }

  /** A directory has this name, or a file stands where this name needs a directory. */
  predicate Obstructed(stage: Stage, path: string) { exists q :: q in stage && (Below(q, path) || Below(path, q)) }

  const PATH_INVALID := "VES_TUF_STAGE_PATH_INVALID"

  function StageItem(stage: Stage, item: Item, t: Try): (Stage, Outcome) {
    if Obstructed(stage, item.path) then (stage, Failed(PATH_INVALID))
    else if Matches(FileAt(stage, item.path), ComponentOf(item.content)) then (stage, Finished)
    else if Obstructed(stage, PartOf(item.path)) then (Put(stage, item.path, None), Failed(PATH_INVALID))
    else
      var (files, outcome) := Attempt(ComponentOf(item.content), t.chunkSize, FilesFor(stage, item.path), t.replies, t.cut);
      (PutBack(stage, item.path, files), outcome)
  }

  /** The components from the `i`th on, until one does not finish. */
  function StageFrom(stage: Stage, items: seq<Item>, i: nat, tries: seq<Try>): (Stage, Outcome)
    decreases |items| - i
  {
    if i >= |items| then (stage, Finished)
    else if tries == [] then (stage, Interrupted)
    else
      var (next, outcome) := StageItem(stage, items[i], tries[0]);
      if outcome != Finished then (next, outcome) else StageFrom(next, items, i + 1, tries[1..])
  }

  /** An existing receipt must be this very one. */
  function WriteReceipt(stage: Stage, receipt: seq<byte>): (Stage, Outcome) {
    if InstallRoot.RECEIPT in stage then
      (stage, if stage[InstallRoot.RECEIPT] == receipt then Finished else Failed("VES_TUF_STAGE_CONFLICT"))
    else if Obstructed(stage, InstallRoot.RECEIPT) then (stage, Failed(PATH_INVALID))
    else (stage[InstallRoot.RECEIPT := receipt], Finished)
  }

  function Visited(stage: Stage, items: seq<Item>, receipt: seq<byte>, v: Visit): (Stage, Outcome) {
    var (next, outcome) := StageFrom(stage, items, 0, v.tries);
    if outcome != Finished then (next, outcome)
    else if !v.reachesReceipt then (next, Interrupted)
    else WriteReceipt(next, receipt)
  }

  class ReleaseStage {
    var files: Stage

    constructor (files: Stage)
      ensures this.files == files
    {
      this.files := files;
    }

    /** One component: its two files are the state of a staged component. */
    method StageComponent(item: Item, t: Try) returns (outcome: Outcome)
      modifies this
      ensures (files, outcome) == StageItem(old(files), item, t)
    {
      if Obstructed(files, item.path) {
        return Failed(PATH_INVALID);
      }
      if Matches(FileAt(files, item.path), ComponentOf(item.content)) {
        return Finished;
      }
      if Obstructed(files, PartOf(item.path)) {
        files := Put(files, item.path, None);
        return Failed(PATH_INVALID);
      }
      var component := new StagedComponent(FilesFor(files, item.path));
      outcome := component.Stage(ComponentOf(item.content), t.chunkSize, t.replies, t.cut);
      files := PutBack(files, item.path, Files(component.partial, component.final));
    }

    /** The loop over the manifest's components, then the receipt. */
    method StageRelease(items: seq<Item>, receipt: seq<byte>, v: Visit) returns (outcome: Outcome)
      modifies this
      ensures (files, outcome) == Visited(old(files), items, receipt, v)
    {
      hide StageItem, WriteReceipt;
      var i := 0;
      while i < |items|
        invariant i <= |items| && i <= |v.tries|
        invariant StageFrom(old(files), items, 0, v.tries) == StageFrom(files, items, i, v.tries[i..])
      {
        if i == |v.tries| {
          return Interrupted;
        }
        assert v.tries[i..][1..] == v.tries[i + 1..];
        outcome := StageComponent(items[i], v.tries[i]);
        if outcome != Finished {
          return;
        }
        i := i + 1;
      }
      if !v.reachesReceipt {
        return Interrupted;
      }
      var next;
      next, outcome := WriteReceipt(files, receipt).0, WriteReceipt(files, receipt).1;
      files := next;
    }
  }

  // ---- Histories of attempts ----

  /** Wherever the attempt gets to, the source serves each component's own content. */
  ghost predicate HonestFromItem(stage: Stage, items: seq<Item>, i: nat, tries: seq<Try>)
    decreases |items| - i
  {
    i < |items| && tries != [] ==>
      && HonestTry(items[i].content, FilesFor(stage, items[i].path), tries[0])
      && HonestFromItem(StageItem(stage, items[i], tries[0]).0, items, i + 1, tries[1..])
  }

  /** Every component that needs it is answered to the end. */
  ghost predicate AnsweredFrom(stage: Stage, items: seq<Item>, i: nat, tries: seq<Try>)
    decreases |items| - i
  {
    i < |items| ==>
      && tries != []
      && (Matches(FileAt(stage, items[i].path), ComponentOf(items[i].content))
          || Complete(items[i].content, FilesFor(stage, items[i].path), tries[0]))
      && AnsweredFrom(StageItem(stage, items[i], tries[0]).0, items, i + 1, tries[1..])
  }

  ghost predicate Answered(stage: Stage, items: seq<Item>, v: Visit) {
    v.reachesReceipt && AnsweredFrom(stage, items, 0, v.tries)
  }

  function AfterVisits(stage: Stage, items: seq<Item>, receipt: seq<byte>, visits: seq<Visit>): Stage
    decreases |visits|
  {
    if visits == [] then stage else AfterVisits(Visited(stage, items, receipt, visits[0]).0, items, receipt, visits[1..])
  }

  ghost predicate HonestVisits(stage: Stage, items: seq<Item>, receipt: seq<byte>, visits: seq<Visit>)
    decreases |visits|
  {
    visits == [] ||
    (HonestFromItem(stage, items, 0, visits[0].tries)
     && HonestVisits(Visited(stage, items, receipt, visits[0]).0, items, receipt, visits[1..]))
  }

  /** The whole release is there. */
  ghost predicate AllStaged(stage: Stage, items: seq<Item>, receipt: seq<byte>) {
    && (forall i :: 0 <= i < |items| ==> FileAt(stage, items[i].path) == Some(items[i].content))
    && FileAt(stage, InstallRoot.RECEIPT) == Some(receipt)
  }

  /** What a manifest and its receipt have by construction: distinct paths, non-empty components, and a
      receipt that is none of the components, since it repeats their digests. */
  ghost predicate WellFormed(items: seq<Item>, receipt: seq<byte>) {
    && (forall i, j :: 0 <= i < j < |items| ==> items[i].path != items[j].path)
    && (forall i :: 0 <= i < |items| ==> items[i].content != [])
    && (forall i :: 0 <= i < |items| ==> items[i].content != receipt)
  }

  predicate AtOrBelow(path: string, dir: string) { path == dir || Below(path, dir) }

  /** Staged before `later`, `earlier` takes a name that `later` needs. */
  predicate Clash(earlier: Item, later: Item) {
    AtOrBelow(earlier.path, PartOf(later.path)) || Below(earlier.path, later.path) || Below(later.path, earlier.path)
  }

  /** No component takes a name that a later one or the receipt needs. */
  ghost predicate NamesApart(items: seq<Item>) {
    && (forall i, j :: 0 <= i < j < |items| ==> !Clash(items[i], items[j]))
    && (forall i :: 0 <= i < |items| ==> !AtOrBelow(items[i].path, InstallRoot.RECEIPT))
  }

  // ---- Names ----

  lemma PartNames(p: string, q: string)
    ensures PartOf(p) != p && !Below(PartOf(p), p) && !Below(p, PartOf(p))
    ensures Below(PartOf(p), q) ==> Below(p, q)
    ensures PartOf(p) == PartOf(q) ==> p == q
    ensures !Below(p, p)
  {
    assert PartOf(p)[|p|] == '.' && (p + "/")[|p|] == '/';
    if Below(PartOf(p), q) {
      assert PartOf(p)[|q|] == (q + "/")[|q|] == '/';
      assert forall i :: |p| <= i < |PartOf(p)| ==> PartOf(p)[i] != '/';
      assert (q + "/") == p[..|q| + 1];
    }
    if PartOf(p) == PartOf(q) {
      assert p == PartOf(p)[..|p|] && q == PartOf(q)[..|q|];
    }
  }

  lemma ReceiptNames(p: string)
    ensures PartOf(p) != InstallRoot.RECEIPT && !Below(InstallRoot.RECEIPT, p)
    ensures Below(PartOf(p), InstallRoot.RECEIPT) ==> Below(p, InstallRoot.RECEIPT)
  {
    var receipt := InstallRoot.RECEIPT;
    PartNames(p, receipt);
    assert PartOf(p)[|PartOf(p)| - 1] == 't' && receipt[|receipt| - 1] == 'n';
    assert forall i :: 0 <= i < |receipt| ==> receipt[i] != '/';
    assert (p + "/")[|p|] == '/';
  }

  // ---- Names apart: every history works out ----

  /** The first `m` components are staged, the next has at most a good beginning in its partial file, and
      there is nothing else, except the receipt of a finished stage. */
  ghost predicate Progress(stage: Stage, items: seq<Item>, receipt: seq<byte>, m: nat) {
    && m <= |items|
    && (forall i :: 0 <= i < m ==> FileAt(stage, items[i].path) == Some(items[i].content))
    && (forall p :: p in stage ==> Staged(items, m, p) || Beginning(stage, items, m, p) || Receipted(stage, items, receipt, m, p))
  }

  predicate Staged(items: seq<Item>, m: nat, p: string)
    requires m <= |items|
  {
    exists i :: 0 <= i < m && items[i].path == p
  }

  predicate Beginning(stage: Stage, items: seq<Item>, m: nat, p: string)
    requires p in stage
  {
    m < |items| && p == PartOf(items[m].path) && stage[p] <= items[m].content
  }

  predicate Receipted(stage: Stage, items: seq<Item>, receipt: seq<byte>, m: nat, p: string)
    requires p in stage
  {
    m == |items| && p == InstallRoot.RECEIPT && stage[p] == receipt
  }

  /** A staged component is passed over. */
  lemma StagedIsSkipped(stage: Stage, items: seq<Item>, receipt: seq<byte>, m: nat, i: nat, t: Try)
    requires Progress(stage, items, receipt, m) && NamesApart(items) && i < m
    ensures StageItem(stage, items[i], t) == (stage, Finished)
  {
    hide Below;
    var path := items[i].path;
    forall q | q in stage
      ensures !Below(q, path) && !Below(path, q)
    {
      ReceiptNames(path);
      if Staged(items, m, q) {
        var k :| 0 <= k < m && items[k].path == q;
        PartNames(path, path);
        assert k == i || !Clash(items[k], items[i]) || k > i;
        assert k == i || !Clash(items[i], items[k]) || i > k;
      } else if Beginning(stage, items, m, q) {
        PartNames(items[m].path, path);
        assert !Clash(items[i], items[m]);
      }
    }
  }

  /** The next component finds its names free. */
  lemma NextIsFree(stage: Stage, items: seq<Item>, receipt: seq<byte>, m: nat)
    requires Progress(stage, items, receipt, m) && NamesApart(items) && WellFormed(items, receipt) && m < |items|
    ensures !Obstructed(stage, items[m].path) && !Obstructed(stage, PartOf(items[m].path))
    ensures FilesFor(stage, items[m].path).final == None && Clean(items[m].content, FilesFor(stage, items[m].path))
  {
    hide Below;
    var path := items[m].path;
    PartNames(path, path);
    PartNames(PartOf(path), path);
    forall q | q in stage
      ensures !Below(q, path) && !Below(path, q) && !Below(q, PartOf(path)) && !Below(PartOf(path), q) && q != path
      ensures q == PartOf(path) ==> stage[q] <= items[m].content
    {
      if Staged(items, m, q) {
        var k :| 0 <= k < m && items[k].path == q;
        assert !Clash(items[k], items[m]);
        PartNames(path, q);
      } else {
        PartNames(q, q);
      }
    }
  }

  lemma NextStaged(stage: Stage, items: seq<Item>, receipt: seq<byte>, m: nat, t: Try)
    requires Progress(stage, items, receipt, m) && NamesApart(items) && WellFormed(items, receipt) && m < |items|
    requires HonestTry(items[m].content, FilesFor(stage, items[m].path), t)
    ensures var (next, outcome) := StageItem(stage, items[m], t);
            && (outcome.Finished? ==> Progress(next, items, receipt, m + 1))
            && (!outcome.Finished? ==> Progress(next, items, receipt, m))
  {
    var item, files := items[m], FilesFor(stage, items[m].path);
    NextIsFree(stage, items, receipt, m);
    AttemptKeepsClean(item.content, files, t);
    hide HonestTry, Obstructed, NamesApart;
    var (after, outcome) := Attempt(ComponentOf(item.content), t.chunkSize, files, t.replies, t.cut);
    AttemptShape(item.content, files, t);
    hide Attempt, Matches;
    NextPut(stage, items, receipt, m, after, outcome);
  }

  /** An attempt that starts without the final file ends with the partial file or with the final one. */
  lemma AttemptShape(content: seq<byte>, files: Files, t: Try)
    requires content != [] && files.final == None
    ensures var (after, outcome) := Attempt(ComponentOf(content), t.chunkSize, files, t.replies, t.cut);
            if outcome.Finished? then after == Files(None, after.final) else after.final == None
  {
  }

  lemma NextPut(stage: Stage, items: seq<Item>, receipt: seq<byte>, m: nat, after: Files, outcome: Outcome)
    requires Progress(stage, items, receipt, m) && WellFormed(items, receipt) && m < |items|
    requires items[m].path !in stage && Clean(items[m].content, after)
    requires forall i :: 0 <= i < m ==> items[i].path != PartOf(items[m].path)
    requires if outcome.Finished? then after == Files(None, Some(items[m].content)) else after.final == None
    ensures Progress(PutBack(stage, items[m].path, after), items, receipt, if outcome.Finished? then m + 1 else m)
  {
    var next, k := PutBack(stage, items[m].path, after), if outcome.Finished? then m + 1 else m;
    PartNames(items[m].path, items[m].path);
    forall i | 0 <= i < k
      ensures FileAt(next, items[i].path) == Some(items[i].content)
    {
      if i < m {
        assert FileAt(stage, items[i].path) == Some(items[i].content);
        assert items[i].path != items[m].path;
      }
    }
    forall p | p in next
      ensures Staged(items, k, p) || Beginning(next, items, k, p) || Receipted(next, items, receipt, k, p)
    {
      if p == items[m].path {
        assert items[m].path == p;
      } else if p != PartOf(items[m].path) {
        assert p in stage && Staged(items, m, p);
        var i :| 0 <= i < m && items[i].path == p;
        assert items[i].path == p;
      }
    }
  }

  lemma {:induction false} StageFromKeeps(
    stage: Stage, items: seq<Item>, receipt: seq<byte>, m: nat, i: nat, tries: seq<Try>) returns (m': nat)
    requires Progress(stage, items, receipt, m) && i <= m && NamesApart(items) && WellFormed(items, receipt)
    requires HonestFromItem(stage, items, i, tries)
    ensures m <= m' && Progress(StageFrom(stage, items, i, tries).0, items, receipt, m')
    ensures StageFrom(stage, items, i, tries).1.Finished? ==> m' == |items|
    decreases |items| - i
  {
    hide Progress, StageItem, NamesApart, WellFormed, HonestTry;
    m' := m;
    ProgressBound(stage, items, receipt, m);
    if i < |items| && tries != [] {
      var (next, outcome) := StageItem(stage, items[i], tries[0]);
      if i < m {
        StagedIsSkipped(stage, items, receipt, m, i, tries[0]);
        m' := StageFromKeeps(stage, items, receipt, m, i + 1, tries[1..]);
      } else {
        NextStaged(stage, items, receipt, m, tries[0]);
        if outcome.Finished? {
          m' := StageFromKeeps(next, items, receipt, m + 1, i + 1, tries[1..]);
        }
      }
    }
  }

  lemma ProgressBound(stage: Stage, items: seq<Item>, receipt: seq<byte>, m: nat)
    requires Progress(stage, items, receipt, m)
    ensures m <= |items|
  {
  }

  lemma NextFinishes(stage: Stage, items: seq<Item>, receipt: seq<byte>, m: nat, t: Try)
    requires Progress(stage, items, receipt, m) && NamesApart(items) && WellFormed(items, receipt) && m < |items|
    requires Matches(FileAt(stage, items[m].path), ComponentOf(items[m].content))
             || Complete(items[m].content, FilesFor(stage, items[m].path), t)
    ensures var (next, outcome) := StageItem(stage, items[m], t);
            outcome.Finished? && Progress(next, items, receipt, m + 1)
  {
    NextIsFree(stage, items, receipt, m);
    hide Obstructed, NamesApart;
    CompleteAttemptEnds(items[m].content, FilesFor(stage, items[m].path), t);
    NextStaged(stage, items, receipt, m, t);
  }

  lemma {:induction false} AnsweredFinishes(
    stage: Stage, items: seq<Item>, receipt: seq<byte>, m: nat, i: nat, tries: seq<Try>)
    requires Progress(stage, items, receipt, m) && i <= m && NamesApart(items) && WellFormed(items, receipt)
    requires AnsweredFrom(stage, items, i, tries)
    ensures StageFrom(stage, items, i, tries).1.Finished?
    ensures Progress(StageFrom(stage, items, i, tries).0, items, receipt, |items|)
    decreases |items| - i
  {
    hide Progress, StageItem, NamesApart, WellFormed, Complete, Matches;
    ProgressBound(stage, items, receipt, m);
    if i < |items| {
      if i < m {
        StagedIsSkipped(stage, items, receipt, m, i, tries[0]);
        AnsweredFinishes(stage, items, receipt, m, i + 1, tries[1..]);
      } else {
        NextFinishes(stage, items, receipt, m, tries[0]);
        AnsweredFinishes(StageItem(stage, items[i], tries[0]).0, items, receipt, m + 1, i + 1, tries[1..]);
      }
    }
  }

  lemma ReceiptFinishes(stage: Stage, items: seq<Item>, receipt: seq<byte>)
    requires Progress(stage, items, receipt, |items|) && NamesApart(items)
    ensures var (next, outcome) := WriteReceipt(stage, receipt);
            outcome.Finished? && Progress(next, items, receipt, |items|) && AllStaged(next, items, receipt)
  {
    hide Below;
    var name := InstallRoot.RECEIPT;
    ReceiptNames(name);
    forall q | q in stage
      ensures q == name ==> stage[q] == receipt
      ensures !Below(q, name) && !Below(name, q)
    {
      ReceiptNames(q);
      if Staged(items, |items|, q) {
        var i :| 0 <= i < |items| && items[i].path == q;
        assert !AtOrBelow(items[i].path, name);
      }
    }
    forall i | 0 <= i < |items|
      ensures items[i].path != name && FileAt(stage, items[i].path) == Some(items[i].content)
    {
      assert !AtOrBelow(items[i].path, name);
    }
    var next := WriteReceipt(stage, receipt).0;
    assert next == stage[name := receipt];
    forall p | p in next
      ensures Staged(items, |items|, p) || Beginning(next, items, |items|, p) || Receipted(next, items, receipt, |items|, p)
    {
      if p != name {
        assert p in stage;
      }
    }
  }

  lemma VisitKeeps(stage: Stage, items: seq<Item>, receipt: seq<byte>, m: nat, v: Visit) returns (m': nat)
    requires Progress(stage, items, receipt, m) && NamesApart(items) && WellFormed(items, receipt)
    requires HonestFromItem(stage, items, 0, v.tries)
    ensures m <= m' && Progress(Visited(stage, items, receipt, v).0, items, receipt, m')
  {
    hide Progress, StageFrom, NamesApart, WellFormed, HonestFromItem, WriteReceipt;
    m' := StageFromKeeps(stage, items, receipt, m, 0, v.tries);
    var (next, outcome) := StageFrom(stage, items, 0, v.tries);
    if outcome.Finished? && v.reachesReceipt {
      ReceiptFinishes(next, items, receipt);
    }
  }

  /** Over any history of attempts, each cut anywhere, nothing staged is lost and nothing else appears. */
  lemma {:induction false} VisitsKeep(stage: Stage, items: seq<Item>, receipt: seq<byte>, m: nat, visits: seq<Visit>)
    returns (m': nat)
    requires Progress(stage, items, receipt, m) && NamesApart(items) && WellFormed(items, receipt)
    requires HonestVisits(stage, items, receipt, visits)
    ensures m <= m' && Progress(AfterVisits(stage, items, receipt, visits), items, receipt, m')
    decreases |visits|
  {
    hide Progress, Visited, NamesApart, WellFormed, HonestFromItem;
    m' := m;
    if visits != [] {
      m' := VisitKeeps(stage, items, receipt, m, visits[0]);
      m' := VisitsKeep(Visited(stage, items, receipt, visits[0]).0, items, receipt, m', visits[1..]);
    }
  }

  /** After any history of honest attempts from an empty stage, an attempt that finishes has staged
      everything, and one that is answered to the end finishes. */
  ghost predicate Stageable(items: seq<Item>, receipt: seq<byte>) {
    forall visits, last :: WorksAfter(items, receipt, visits, last)
  }

  ghost predicate WorksAfter(items: seq<Item>, receipt: seq<byte>, visits: seq<Visit>, last: Visit) {
    var stage := AfterVisits(map[], items, receipt, visits);
    var (end, outcome) := Visited(stage, items, receipt, last);
    HonestVisits(map[], items, receipt, visits) ==>
      && (HonestFromItem(stage, items, 0, last.tries) && outcome.Finished? ==> AllStaged(end, items, receipt))
      && (Answered(stage, items, last) ==> outcome.Finished? && AllStaged(end, items, receipt))
  }

  lemma ApartWorks(items: seq<Item>, receipt: seq<byte>, visits: seq<Visit>, last: Visit)
    requires NamesApart(items) && WellFormed(items, receipt)
    ensures WorksAfter(items, receipt, visits, last)
  {
    var stage := AfterVisits(map[], items, receipt, visits);
    if HonestVisits(map[], items, receipt, visits) {
      assert Progress(map[], items, receipt, 0);
      hide Progress, StageFrom, NamesApart, WellFormed, HonestVisits, AfterVisits, WriteReceipt, AnsweredFrom, AllStaged,
        HonestFromItem;
      var m := VisitsKeep(map[], items, receipt, 0, visits);
      ProgressBound(stage, items, receipt, m);
      var (next, outcome) := StageFrom(stage, items, 0, last.tries);
      if HonestFromItem(stage, items, 0, last.tries) && outcome.Finished? {
        var m' := StageFromKeeps(stage, items, receipt, m, 0, last.tries);
        ReceiptFinishes(next, items, receipt);
      }
      if Answered(stage, items, last) {
        AnsweredFinishes(stage, items, receipt, m, 0, last.tries);
        ReceiptFinishes(next, items, receipt);
      }
    }
  }

  // ---- Names that clash: the first attempt already fails or loses a file ----

  /** A source that serves what is missing in one answer, and then no more. */
  function Rest(content: seq<byte>, partial: Option<seq<byte>>): Try
    requires content != []
  {
    Try(|content|, [Serves(content[|Held(partial, |content|)|..], |content|)] + seq(|content|, _ => Fails), Never)
  }

  function AnswersFrom(stage: Stage, items: seq<Item>, i: nat): seq<Try>
    requires forall k :: 0 <= k < |items| ==> items[k].content != []
    decreases |items| - i
  {
    if i >= |items| then []
    else
      var t := Rest(items[i].content, FileAt(stage, PartOf(items[i].path)));
      [t] + AnswersFrom(StageItem(stage, items[i], t).0, items, i + 1)
  }

  lemma RestIsComplete(content: seq<byte>, files: Files)
    requires content != []
    ensures Complete(content, files, Rest(content, files.partial))
  {
    var t, held := Rest(content, files.partial), |Held(files.partial, |content|)|;
    var rest := t.replies[1..];
    assert rest == [] || rest[0].Fails?;
    assert content[held..] == content[held..held + |content[held..]|];
  }

  lemma {:induction false} AnswersAreAnswered(stage: Stage, items: seq<Item>, i: nat)
    requires forall k :: 0 <= k < |items| ==> items[k].content != []
    ensures AnsweredFrom(stage, items, i, AnswersFrom(stage, items, i))
    decreases |items| - i
  {
    hide StageItem, Complete, Matches, Rest;
    if i < |items| {
      var t := Rest(items[i].content, FileAt(stage, PartOf(items[i].path)));
      var next := StageItem(stage, items[i], t).0;
      RestIsComplete(items[i].content, FilesFor(stage, items[i].path));
      AnswersAreAnswered(next, items, i + 1);
      assert ([t] + AnswersFrom(next, items, i + 1))[1..] == AnswersFrom(next, items, i + 1);
    }
  }

  /** Nothing but final files of the first `i` components. */
  ghost predicate OnlyFinals(stage: Stage, items: seq<Item>, i: nat)
    requires i <= |items|
  {
    forall p :: p in stage ==> Staged(items, i, p)
  }

  /** A component that finishes had its names to itself. */
  lemma FinishedHadItsNames(stage: Stage, items: seq<Item>, receipt: seq<byte>, i: nat, t: Try)
    requires i < |items| && OnlyFinals(stage, items, i) && WellFormed(items, receipt)
    requires StageItem(stage, items[i], t).1.Finished?
    ensures OnlyFinals(StageItem(stage, items[i], t).0, items, i + 1)
    ensures forall k :: 0 <= k < i && items[k].path in StageItem(stage, items[i], t).0 ==>
              items[k].path in stage && !Clash(items[k], items[i])
  {
    hide Below;
    var item, next := items[i], StageItem(stage, items[i], t).0;
    assert !Staged(items, i, item.path);
    PartNames(item.path, item.path);
    var files := FilesFor(stage, item.path);
    AttemptShape(item.content, files, t);
    hide Attempt;
    forall p | p in next
      ensures Staged(items, i + 1, p) && (p != item.path ==> p in stage && p != PartOf(item.path))
    {
      if p == item.path {
        assert items[i].path == p;
      } else {
        assert Staged(items, i, p);
        var k :| 0 <= k < i && items[k].path == p;
        assert items[k].path == p;
      }
    }
  }

  lemma {:induction false} FinishedRunIsApart(stage: Stage, items: seq<Item>, receipt: seq<byte>, i: nat, tries: seq<Try>)
    requires i <= |items| && OnlyFinals(stage, items, i) && WellFormed(items, receipt)
    requires StageFrom(stage, items, i, tries).1.Finished?
    requires forall k :: 0 <= k < |items| ==> items[k].path in StageFrom(stage, items, i, tries).0
    ensures OnlyFinals(StageFrom(stage, items, i, tries).0, items, |items|)
    ensures forall k :: 0 <= k < i ==> items[k].path in stage
    ensures forall k, j :: 0 <= k < j < |items| && i <= j ==> !Clash(items[k], items[j])
    decreases |items| - i
  {
    hide StageItem, Clash, OnlyFinals, WellFormed;
    if i < |items| {
      FinishedHadItsNames(stage, items, receipt, i, tries[0]);
      FinishedRunIsApart(StageItem(stage, items[i], tries[0]).0, items, receipt, i + 1, tries[1..]);
    }
  }

  lemma ReceiptHadItsName(stage: Stage, items: seq<Item>, receipt: seq<byte>)
    requires OnlyFinals(stage, items, |items|) && WellFormed(items, receipt)
    requires WriteReceipt(stage, receipt).1.Finished? && AllStaged(WriteReceipt(stage, receipt).0, items, receipt)
    ensures forall k :: 0 <= k < |items| ==> !AtOrBelow(items[k].path, InstallRoot.RECEIPT)
  {
    hide Below;
    forall k | 0 <= k < |items|
      ensures !AtOrBelow(items[k].path, InstallRoot.RECEIPT)
    {
      assert FileAt(WriteReceipt(stage, receipt).0, items[k].path) == Some(items[k].content);
      assert items[k].content != receipt;
    }
  }

  lemma WorksMeansApart(items: seq<Item>, receipt: seq<byte>)
    requires WellFormed(items, receipt) && WorksAfter(items, receipt, [], Visit(AnswersFrom(map[], items, 0), true))
    ensures NamesApart(items)
  {
    var tries := AnswersFrom(map[], items, 0);
    AnswersAreAnswered(map[], items, 0);
    hide StageFrom, AnswersFrom, WriteReceipt, AnsweredFrom, WellFormed;
    var (stage, outcome) := StageFrom(map[], items, 0, tries);
    assert OnlyFinals(map[], items, 0);
    assert outcome.Finished?;
    KeysBeforeReceipt(stage, items, receipt);
    FinishedRunIsApart(map[], items, receipt, 0, tries);
    ReceiptHadItsName(stage, items, receipt);
  }

  lemma KeysBeforeReceipt(stage: Stage, items: seq<Item>, receipt: seq<byte>)
    requires WellFormed(items, receipt)
    requires WriteReceipt(stage, receipt).1.Finished? && AllStaged(WriteReceipt(stage, receipt).0, items, receipt)
    ensures forall k :: 0 <= k < |items| ==> items[k].path in stage
  {
    hide Below;
    forall k | 0 <= k < |items|
      ensures items[k].path in stage
    {
      assert FileAt(WriteReceipt(stage, receipt).0, items[k].path) == Some(items[k].content);
      assert items[k].content != receipt;
    }
  }

  /** A release can be staged over every history of honest attempts, each cut anywhere, exactly when no
      component takes a name that a later component or the receipt needs: a path that lies at or inside
      another's partial file, inside another component, or at or inside the receipt. */
  lemma StageableIff(items: seq<Item>, receipt: seq<byte>)
    requires WellFormed(items, receipt)
    ensures Stageable(items, receipt) <==> NamesApart(items)
  {
    hide WellFormed, NamesApart, WorksAfter;
    if NamesApart(items) {
      forall visits, last
        ensures WorksAfter(items, receipt, visits, last)
      {
        ApartWorks(items, receipt, visits, last);
      }
    } else {
      Contents(items, receipt);
      var last := Visit(AnswersFrom(map[], items, 0), true);
      if WorksAfter(items, receipt, [], last) {
        WorksMeansApart(items, receipt);
      }
    }
  }

  lemma Contents(items: seq<Item>, receipt: seq<byte>)
    requires WellFormed(items, receipt)
    ensures forall k :: 0 <= k < |items| ==> items[k].content != []
  {
  }

  // ---- What a clash does ----

  /** The component `x.part` comes first and is no beginning of `x`. */
  const SHADOWED: seq<Item> := [Item("x.part", [1]), Item("x", [2, 3])]

  /** The component `x.part` comes first and is longer than `x`. */
  const OVERTAKEN: seq<Item> := [Item("x.part", [1, 2]), Item("x", [3])]

  lemma PartOfX()
    ensures PartOf("x") == "x.part" && "x" != "x.part"
    ensures !Obstructed(map[], "x") && !Obstructed(map[], "x.part")
    ensures forall content: seq<byte> ::
              !Obstructed(map["x.part" := content], "x") && !Obstructed(map["x.part" := content], "x.part")
    ensures !Obstructed(map[], PartOf("x.part"))
  {
    PartNames("x", "x");
    PartNames("x.part", "x.part");
    hide Below;
    assert "x" + ".part" == "x.part";
  }

  lemma FirstTakesTheName(content: seq<byte>, t: Try)
    requires content != [] && Complete(content, Files(None, None), t)
    ensures StageItem(map[], Item("x.part", content), t) == (map["x.part" := content], Finished)
  {
    PartOfX();
    PartNames("x.part", "x.part");
    var files := Files(None, None);
    assert FilesFor(map[], "x.part") == files && Clean(content, files);
    CompleteAttemptEnds(content, files, t);
    AttemptShape(content, files, t);
    hide Obstructed, Complete, Attempt;
    assert PutBack(map[], "x.part", Files(None, Some(content))) == map["x.part" := content];
  }

  /** The whole partial file of `x` is there, as far as its size tells: it is another's content. */
  lemma ShadowedFails(t: Try)
    requires Complete([2, 3], Files(Some([1]), None), t)
    ensures StageItem(map["x.part" := [1]], Item("x", [2, 3]), t) == (map[], Failed("VES_TUF_INTEGRITY"))
  {
    PartOfX();
    hide Obstructed;
    var content: seq<byte> := [2, 3];
    DownloadFinishes(2, t.chunkSize, [1], t.replies);
    var held := Download(2, t.chunkSize, [1], t.replies).0;
    assert held[0] == 1 != content[0];
  }

  /** However often it is answered to the end, such a release never gets staged. */
  lemma {:induction false} ShadowedNeverStages(receipt: seq<byte>, visits: seq<Visit>, last: Visit)
    requires AnsweredVisits(map[], SHADOWED, receipt, visits + [last])
    ensures AfterVisits(map[], SHADOWED, receipt, visits) == map[]
    ensures Visited(map[], SHADOWED, receipt, last) == (map[], Failed("VES_TUF_INTEGRITY"))
    decreases |visits|
  {
    if visits == [] {
      assert visits + [last] == [last];
      ShadowedVisit(receipt, last);
    } else {
      assert (visits + [last])[0] == visits[0] && (visits + [last])[1..] == visits[1..] + [last];
      ShadowedVisit(receipt, visits[0]);
      ShadowedNeverStages(receipt, visits[1..], last);
    }
  }

  ghost predicate AnsweredVisits(stage: Stage, items: seq<Item>, receipt: seq<byte>, visits: seq<Visit>)
    decreases |visits|
  {
    visits == [] ||
    (Answered(stage, items, visits[0])
     && AnsweredVisits(Visited(stage, items, receipt, visits[0]).0, items, receipt, visits[1..]))
  }

  lemma AnsweredTwo(a: Item, b: Item, v: Visit)
    requires a.content != [] && a.path == "x.part" && b.path == "x" && Answered(map[], [a, b], v)
    ensures |v.tries| >= 2 && Complete(a.content, Files(None, None), v.tries[0])
    ensures StageItem(map[], a, v.tries[0]) == (map["x.part" := a.content], Finished)
    ensures Complete(b.content, Files(Some(a.content), None), v.tries[1])
    ensures StageFrom(map[], [a, b], 0, v.tries) == StageFrom(map["x.part" := a.content], [a, b], 1, v.tries[1..])
  {
    PartOfX();
    PartNames("x.part", "x.part");
    hide Obstructed, Complete, StageItem, Attempt;
    assert FilesFor(map[], a.path) == Files(None, None);
    FirstTakesTheName(a.content, v.tries[0]);
    assert AnsweredFrom(map["x.part" := a.content], [a, b], 1, v.tries[1..]);
    assert FilesFor(map["x.part" := a.content], b.path) == Files(Some(a.content), None);
  }

  lemma ShadowedVisit(receipt: seq<byte>, v: Visit)
    requires Answered(map[], SHADOWED, v)
    ensures Visited(map[], SHADOWED, receipt, v) == (map[], Failed("VES_TUF_INTEGRITY"))
  {
    hide StageItem, Complete;
    AnsweredTwo(SHADOWED[0], SHADOWED[1], v);
    ShadowedFails(v.tries[1]);
  }

  /** A first attempt that is answered to the end reports the release staged, with a component missing. */
  lemma OvertakenLosesFile(receipt: seq<byte>, v: Visit)
    requires Answered(map[], OVERTAKEN, v)
    ensures var (stage, outcome) := Visited(map[], OVERTAKEN, receipt, v);
            outcome.Finished? && "x.part" !in stage && FileAt(stage, "x") == Some(OVERTAKEN[1].content)
  {
    AnsweredTwo(OVERTAKEN[0], OVERTAKEN[1], v);
    OvertakenStep(v.tries[1]);
    ReceiptNames("x");
    hide StageItem, Complete;
    var stage: Stage := map["x" := [3]];
    assert StageFrom(stage, OVERTAKEN, 2, v.tries[1..][1..]) == (stage, Finished);
    ReceiptApart(stage);
  }

  lemma ReceiptApart(stage: Stage)
    requires forall p :: p in stage ==> p == "x"
    ensures InstallRoot.RECEIPT !in stage && !Obstructed(stage, InstallRoot.RECEIPT)
    ensures InstallRoot.RECEIPT != "x.part" && InstallRoot.RECEIPT != "x"
  {
    ReceiptNames("x");
    assert ("x")[0] == 'x' && (InstallRoot.RECEIPT + "/")[0] == InstallRoot.RECEIPT[0] == 's';
  }

  lemma OvertakenStep(t: Try)
    requires Complete([3], Files(Some([1, 2]), None), t)
    ensures StageItem(map["x.part" := [1, 2]], Item("x", [3]), t) == (map["x" := [3]], Finished)
  {
    PartOfX();
    hide Obstructed;
    var files := Files(Some([1, 2]), None);
    assert Held(files.partial, 1) == [];
    DownloadExtendsPrefix([3], t.chunkSize, [], t.replies);
    DownloadFinishes(1, t.chunkSize, [], t.replies);
  }

  // ---- Whatever earlier attempts left ----

  /** No component takes a name that any other or the receipt needs. */
  ghost predicate AllApart(items: seq<Item>) {
    && (forall i, j :: 0 <= i < |items| && 0 <= j < |items| && i != j ==> !Clash(items[i], items[j]))
    && (forall i :: 0 <= i < |items| ==> !AtOrBelow(items[i].path, InstallRoot.RECEIPT))
  }

  /** Files of any content under the release's own names, and no receipt but its own. */
  ghost predicate OwnNames(stage: Stage, items: seq<Item>, receipt: seq<byte>) {
    forall p :: p in stage ==>
      (exists i :: 0 <= i < |items| && NameOf(items[i], p)) || (p == InstallRoot.RECEIPT && stage[p] == receipt)
  }

  predicate NameOf(item: Item, p: string) { p == item.path || p == PartOf(item.path) }

  lemma NamesDoNotObstruct(items: seq<Item>, i: nat, k: nat, q: string)
    requires AllApart(items) && i < |items| && k < |items| && NameOf(items[k], q)
    ensures var path := items[i].path;
            !Below(q, path) && !Below(path, q) && !Below(q, PartOf(path)) && !Below(PartOf(path), q)
  {
    hide Below;
    var path, other := items[i].path, items[k].path;
    PartNames(path, other);
    PartNames(path, q);
    PartNames(other, path);
    PartNames(other, PartOf(path));
    PartNames(path, path);
    PartNames(PartOf(path), path);
    assert i != k ==> !Clash(items[i], items[k]) && !Clash(items[k], items[i]);
  }

  lemma OwnNamesAreFree(stage: Stage, items: seq<Item>, receipt: seq<byte>, i: nat)
    requires AllApart(items) && OwnNames(stage, items, receipt) && i < |items|
    ensures !Obstructed(stage, items[i].path) && !Obstructed(stage, PartOf(items[i].path))
  {
    hide Below;
    forall q | q in stage
      ensures !Below(q, items[i].path) && !Below(items[i].path, q)
      ensures !Below(q, PartOf(items[i].path)) && !Below(PartOf(items[i].path), q)
    {
      if k :| 0 <= k < |items| && NameOf(items[k], q) {
        NamesDoNotObstruct(items, i, k, q);
      } else {
        ReceiptNames(items[i].path);
        ReceiptNames(PartOf(items[i].path));
      }
    }
  }

  /** The files of the others are out of reach. */
  lemma NamesAreDisjoint(items: seq<Item>, receipt: seq<byte>, i: nat, k: nat)
    requires AllApart(items) && WellFormed(items, receipt) && i < |items| && k < |items| && i != k
    ensures items[k].path != items[i].path && items[k].path != PartOf(items[i].path)
    ensures PartOf(items[k].path) != items[i].path && PartOf(items[k].path) != PartOf(items[i].path)
    ensures items[i].path != InstallRoot.RECEIPT && PartOf(items[i].path) != InstallRoot.RECEIPT
  {
    hide Below;
    assert !Clash(items[i], items[k]) && !Clash(items[k], items[i]) && !AtOrBelow(items[i].path, InstallRoot.RECEIPT);
    PartNames(items[i].path, items[k].path);
    ReceiptNames(items[i].path);
  }

  /** One answered attempt at one component: staged, or its bad partial file is gone. */
  lemma ItemHeals(stage: Stage, items: seq<Item>, receipt: seq<byte>, i: nat, t: Try)
    requires AllApart(items) && WellFormed(items, receipt) && OwnNames(stage, items, receipt) && i < |items|
    requires Matches(FileAt(stage, items[i].path), ComponentOf(items[i].content))
             || Complete(items[i].content, FilesFor(stage, items[i].path), t)
    ensures var (next, outcome) := StageItem(stage, items[i], t);
            && OwnNames(next, items, receipt)
            && (forall k :: 0 <= k < |items| && k != i ==> FilesFor(next, items[k].path) == FilesFor(stage, items[k].path))
            && (outcome.Finished? ==> FileAt(next, items[i].path) == Some(items[i].content))
            && (outcome.Finished? || (outcome.Failed? && FilesFor(next, items[i].path) == Files(None, None)))
            && (Clean(items[i].content, FilesFor(stage, items[i].path)) ==> outcome.Finished?)
  {
    var item, files := items[i], FilesFor(stage, items[i].path);
    OwnNamesAreFree(stage, items, receipt, i);
    hide Obstructed;
    if !Matches(FileAt(stage, item.path), ComponentOf(item.content)) {
      CompleteAttemptEnds(item.content, files, t);
      AttemptPuts(stage, items, receipt, i, Attempt(ComponentOf(item.content), t.chunkSize, files, t.replies, t.cut).0);
    }
  }

  lemma AttemptPuts(stage: Stage, items: seq<Item>, receipt: seq<byte>, i: nat, after: Files)
    requires AllApart(items) && WellFormed(items, receipt) && OwnNames(stage, items, receipt) && i < |items|
    ensures var next := PutBack(stage, items[i].path, after);
            && OwnNames(next, items, receipt) && FilesFor(next, items[i].path) == after
            && (forall k :: 0 <= k < |items| && k != i ==> FilesFor(next, items[k].path) == FilesFor(stage, items[k].path))
  {
    var next := PutBack(stage, items[i].path, after);
    PartNames(items[i].path, items[i].path);
    forall k | 0 <= k < |items| && k != i
      ensures FilesFor(next, items[k].path) == FilesFor(stage, items[k].path)
    {
      NamesAreDisjoint(items, receipt, i, k);
    }
    hide AllApart, WellFormed;
    forall p | p in next
      ensures (exists k :: 0 <= k < |items| && NameOf(items[k], p)) || (p == InstallRoot.RECEIPT && next[p] == receipt)
    {
      if p == items[i].path || p == PartOf(items[i].path) {
        assert NameOf(items[i], p);
      } else {
        assert p in stage && next[p] == stage[p];
      }
    }
  }

  /** The first `m` components are staged, and the next one's partial file is good or gone. */
  ghost predicate Settled(stage: Stage, items: seq<Item>, m: nat) {
    && m <= |items|
    && (forall i :: 0 <= i < m ==> FileAt(stage, items[i].path) == Some(items[i].content))
    && (m < |items| ==> Clean(items[m].content, FilesFor(stage, items[m].path)))
  }

  ghost predicate Finals(stage: Stage, items: seq<Item>, i: nat) {
    i <= |items| && forall k :: 0 <= k < i ==> FileAt(stage, items[k].path) == Some(items[k].content)
  }

  lemma ItemMoves(stage: Stage, items: seq<Item>, receipt: seq<byte>, i: nat, t: Try)
    requires AllApart(items) && WellFormed(items, receipt) && OwnNames(stage, items, receipt) && i < |items|
    requires Finals(stage, items, i)
    requires Matches(FileAt(stage, items[i].path), ComponentOf(items[i].content))
             || Complete(items[i].content, FilesFor(stage, items[i].path), t)
    ensures var (next, outcome) := StageItem(stage, items[i], t);
            && OwnNames(next, items, receipt)
            && (outcome.Finished? ==> Finals(next, items, i + 1))
            && (!outcome.Finished? ==> Settled(next, items, i))
            && (forall m: nat :: Settled(stage, items, m) ==> m <= i || (outcome.Finished? && Settled(next, items, m)))
            && (Settled(stage, items, i) ==> outcome.Finished?)
  {
    hide AllApart, WellFormed, OwnNames, StageItem, Complete;
    var (next, outcome) := StageItem(stage, items[i], t);
    ItemHeals(stage, items, receipt, i, t);
    forall k | 0 <= k < |items| && k != i
      ensures FileAt(next, items[k].path) == FileAt(stage, items[k].path)
    {
      assert FilesFor(next, items[k].path) == FilesFor(stage, items[k].path);
    }
    forall m: nat | Settled(stage, items, m) && m > i
      ensures outcome.Finished? && Settled(next, items, m)
    {
      assert FileAt(stage, items[i].path) == Some(items[i].content);
      MatchedIsSkipped(stage, items, receipt, i, t);
    }
  }

  lemma MatchedIsSkipped(stage: Stage, items: seq<Item>, receipt: seq<byte>, i: nat, t: Try)
    requires AllApart(items) && OwnNames(stage, items, receipt) && i < |items|
    requires FileAt(stage, items[i].path) == Some(items[i].content)
    ensures StageItem(stage, items[i], t) == (stage, Finished)
  {
    OwnNamesAreFree(stage, items, receipt, i);
    hide Obstructed;
  }

  /** An answered walk over the components stages them all, or stops at a later one than the last time. */
  lemma {:induction false} WalkHeals(
    stage: Stage, items: seq<Item>, receipt: seq<byte>, i: nat, tries: seq<Try>, m: Option<nat>) returns (stop: nat)
    requires AllApart(items) && WellFormed(items, receipt) && OwnNames(stage, items, receipt)
    requires Finals(stage, items, i) && AnsweredFrom(stage, items, i, tries)
    requires m.Some? && i <= m.value ==> Settled(stage, items, m.value)
    ensures var (next, outcome) := StageFrom(stage, items, i, tries);
            && OwnNames(next, items, receipt) && stop <= |items|
            && (outcome.Finished? ==> Finals(next, items, |items|))
            && (!outcome.Finished? ==> Settled(next, items, stop) && stop < |items| && (m.Some? ==> m.value < stop))
    decreases |items| - i
  {
    hide AllApart, WellFormed, OwnNames, StageItem, Complete, Settled, Finals, Matches;
    stop := i;
    FinalsBound(stage, items, i);
    if i < |items| {
      ItemMoves(stage, items, receipt, i, tries[0]);
      var (next, outcome) := StageItem(stage, items[i], tries[0]);
      if outcome.Finished? {
        stop := WalkHeals(next, items, receipt, i + 1, tries[1..], m);
      }
    }
  }

  lemma FinalsBound(stage: Stage, items: seq<Item>, i: nat)
    requires Finals(stage, items, i)
    ensures i <= |items|
  {
  }

  lemma FinalsReceipt(stage: Stage, items: seq<Item>, receipt: seq<byte>)
    requires AllApart(items) && OwnNames(stage, items, receipt) && Finals(stage, items, |items|)
    ensures var (next, outcome) := WriteReceipt(stage, receipt);
            outcome.Finished? && OwnNames(next, items, receipt) && AllStaged(next, items, receipt)
  {
    hide Below;
    var name := InstallRoot.RECEIPT;
    ReceiptNames(name);
    forall q | q in stage
      ensures q == name ==> stage[q] == receipt
      ensures !Below(q, name) && !Below(name, q)
    {
      ReceiptNames(q);
      if k :| 0 <= k < |items| && NameOf(items[k], q) {
        assert !AtOrBelow(items[k].path, name);
        ReceiptNames(items[k].path);
      }
    }
    forall k | 0 <= k < |items|
      ensures items[k].path != name
    {
      assert !AtOrBelow(items[k].path, name);
    }
    hide NameOf, AllApart;
  }

  lemma {:induction false} HealsWithin(
    stage: Stage, items: seq<Item>, receipt: seq<byte>, visits: seq<Visit>, m: Option<nat>)
    requires AllApart(items) && WellFormed(items, receipt) && OwnNames(stage, items, receipt)
    requires AnsweredVisits(stage, items, receipt, visits) && visits != []
    requires m.Some? ==> Settled(stage, items, m.value)
    requires |visits| >= (if m.Some? then |items| - m.value else |items| + 1)
    ensures AllStaged(AfterVisits(stage, items, receipt, visits), items, receipt)
    decreases |visits|
  {
    hide AllApart, WellFormed, OwnNames, StageFrom, Settled, WriteReceipt, AnsweredFrom, AllStaged;
    assert Finals(stage, items, 0);
    var stop := WalkHeals(stage, items, receipt, 0, visits[0].tries, m);
    var (walked, outcome) := StageFrom(stage, items, 0, visits[0].tries);
    var next := Visited(stage, items, receipt, visits[0]).0;
    if outcome.Finished? {
      FinalsReceipt(walked, items, receipt);
      StaysStaged(next, items, receipt, visits[1..]);
    } else {
      HealsWithin(next, items, receipt, visits[1..], Some(stop));
    }
  }

  lemma {:induction false} StaysStaged(stage: Stage, items: seq<Item>, receipt: seq<byte>, visits: seq<Visit>)
    requires AllApart(items) && WellFormed(items, receipt) && OwnNames(stage, items, receipt)
    requires AllStaged(stage, items, receipt) && AnsweredVisits(stage, items, receipt, visits)
    ensures AllStaged(AfterVisits(stage, items, receipt, visits), items, receipt)
    decreases |visits|
  {
    hide AllApart, WellFormed, OwnNames, StageFrom, WriteReceipt, AnsweredFrom;
    if visits != [] {
      var next := Visited(stage, items, receipt, visits[0]).0;
      assert Finals(stage, items, 0) && Settled(stage, items, |items|);
      var stop := WalkHeals(stage, items, receipt, 0, visits[0].tries, Some(|items|));
      FinalsReceipt(StageFrom(stage, items, 0, visits[0].tries).0, items, receipt);
      StaysStaged(next, items, receipt, visits[1..]);
    }
  }

  /** Whatever earlier attempts left under the release's own names: after one answered attempt more than
      it has components the release is staged, each failed one having removed a bad partial file. */
  lemma StagingHeals(stage: Stage, items: seq<Item>, receipt: seq<byte>, visits: seq<Visit>)
    requires AllApart(items) && WellFormed(items, receipt) && OwnNames(stage, items, receipt)
    requires AnsweredVisits(stage, items, receipt, visits) && |visits| > |items|
    ensures AllStaged(AfterVisits(stage, items, receipt, visits), items, receipt)
  {
    hide AllApart, WellFormed, OwnNames, AnsweredVisits, AllStaged, AfterVisits;
    HealsWithin(stage, items, receipt, visits, None);
  }
}
