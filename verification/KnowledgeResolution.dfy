/** Human resolution of contradictions: which runs of resolutions are accepted,
    that their order does not matter, and what the resolved package answers. */
module KnowledgeResolution {
  import opened Results
  import opened CodeUnits
  import opened Text
  import opened SchemaSources
  import opened SchemaClaims
  import opened KnowledgePackage

  datatype Request = Request(
    contradictionId: ContradictionId,
    selectedValueDigest: string,
    humanReviewRef: string,
    resolvedAt: string)

  predicate IsReviewRef(s: string) {
    16 <= |s| <= 140 && s[..13] == "human-review-" && Every(s[13..], c => IsLower(c) || IsDigit(c) || c in "._-")
  }

  function ResolutionOf(r: Request): Resolution {
    Resolution(r.selectedValueDigest, r.humanReviewRef, r.resolvedAt)
  }

  predicate Offers(alternatives: seq<Alternative>, valueDigest: string) {
    exists a :: a in alternatives && a.valueDigest == valueDigest
  }

  function Find(items: seq<Contradiction>, id: ContradictionId): Option<Contradiction> {
    if items == [] then None else if items[0].contradictionId == id then Some(items[0]) else Find(items[1..], id)
  }

  function ResolveItem(c: Contradiction, r: Request): Contradiction {
    if c.contradictionId == r.contradictionId then c.(resolution := Some(ResolutionOf(r))) else c
  }

  function ResolveItems(items: seq<Contradiction>, r: Request): seq<Contradiction> {
    seq(|items|, i requires 0 <= i < |items| => ResolveItem(items[i], r))
  }

  function Resolve(p: Package, r: Request): Result<Package> {
    if OfContents(p.contents) != p.packageDigest || !IsDigest(r.selectedValueDigest) || !IsReviewRef(r.humanReviewRef)
       || !IsInstant(r.resolvedAt) then
      Err("VES_DATABASE_CONTRADICTION_RESOLUTION_INVALID")
    else
      var items := p.contents.contradictions;
      match Find(items, r.contradictionId)
      case None => Err("VES_DATABASE_CONTRADICTION_RESOLUTION_INVALID")
      case Some(current) =>
        if !Offers(current.alternatives, r.selectedValueDigest) then
          Err("VES_DATABASE_CONTRADICTION_RESOLUTION_INVALID")
        else if current.resolution.Some? then
          if current.resolution.value == ResolutionOf(r) then Ok(p)
          else Err("VES_DATABASE_CONTRADICTION_RESOLUTION_INVALID")
        else
          Ok(WithDigest(p.contents.(
            generation := p.contents.generation + 1, contradictions := ResolveItems(items, r))))
  }

  /** A run of resolutions, stopping at the first refusal. */
  function ResolveAll(p: Package, rs: seq<Request>): Result<Package> {
    if rs == [] then Ok(p)
    else
      match ResolveAll(p, rs[..|rs| - 1])
      case Err(code) => Err(code)
      case Ok(q) => Resolve(q, rs[|rs| - 1])
  }

  // ---- What a run amounts to ----

  ghost predicate DistinctIds(items: seq<Contradiction>) {
    forall i, j :: 0 <= i < j < |items| ==> items[i].contradictionId != items[j].contradictionId
  }

  /** The package alone decides whether a request could be accepted first. */
  ghost predicate Admissible(items: seq<Contradiction>, r: Request) {
    && IsDigest(r.selectedValueDigest) && IsReviewRef(r.humanReviewRef) && IsInstant(r.resolvedAt)
    && exists c :: c in items && c.contradictionId == r.contradictionId && Offers(c.alternatives, r.selectedValueDigest)
         && (c.resolution.Some? ==> c.resolution.value == ResolutionOf(r))
  }

  /** Every request is admissible and no two of them differ about one contradiction. */
  ghost predicate Consistent(items: seq<Contradiction>, rs: seq<Request>) {
    && (forall r :: r in rs ==> Admissible(items, r))
    && (forall r, q :: r in rs && q in rs && r.contradictionId == q.contradictionId ==> r == q)
  }

  function RequestFor(rs: seq<Request>, id: ContradictionId): (r: Option<Request>)
    ensures r.Some? ==> r.value in rs && r.value.contradictionId == id
    ensures r.None? ==> forall q :: q in rs ==> q.contradictionId != id
  {
    if rs == [] then None else if rs[0].contradictionId == id then Some(rs[0]) else RequestFor(rs[1..], id)
  }

  function Settled(c: Contradiction, rs: seq<Request>): Contradiction {
    var r := RequestFor(rs, c.contradictionId);
    if c.resolution.Some? || r.None? then c else c.(resolution := Some(ResolutionOf(r.value)))
  }

  /** The contradictions a run settles for the first time. */
  function NewlySettled(items: seq<Contradiction>, rs: seq<Request>): set<ContradictionId> {
    set c | c in items && c.resolution.None? && RequestFor(rs, c.contradictionId).Some? :: c.contradictionId
  }

  function AllSettled(items: seq<Contradiction>, rs: seq<Request>): seq<Contradiction> {
    seq(|items|, i requires 0 <= i < |items| => Settled(items[i], rs))
  }

  function After(k: Contents, rs: seq<Request>): Contents {
    k.(generation := k.generation + |NewlySettled(k.contradictions, rs)|,
       contradictions := AllSettled(k.contradictions, rs))
  }

  lemma {:induction false} FindHolds(items: seq<Contradiction>, id: ContradictionId)
    requires DistinctIds(items)
    ensures forall c :: c in items && c.contradictionId == id <==> Find(items, id) == Some(c)
    ensures Find(items, id).None? <==> forall c :: c in items ==> c.contradictionId != id
  {
    if items != [] {
      FindHolds(items[1..], id);
      assert items == [items[0]] + items[1..];
      assert forall i :: 0 < i < |items| ==> items[i] == items[1..][i - 1];
    }
  }

  lemma {:induction false} RequestForSnoc(rs: seq<Request>, r: Request, id: ContradictionId)
    ensures RequestFor(rs + [r], id) ==
              if RequestFor(rs, id).Some? then RequestFor(rs, id)
              else if r.contradictionId == id then Some(r) else None
  {
    if rs == [] {
      assert rs + [r] == [r];
    } else {
      RequestForSnoc(rs[1..], r, id);
      assert (rs + [r])[1..] == rs[1..] + [r];
    }
  }

  /** One more request on a package that a run has already changed. */
  lemma ResolveStep(k: Contents, rs: seq<Request>, r: Request)
    requires DistinctIds(k.contradictions) && Consistent(k.contradictions, rs)
    ensures Resolve(WithDigest(After(k, rs)), r).Ok? <==> Consistent(k.contradictions, rs + [r])
    ensures Consistent(k.contradictions, rs + [r]) ==>
              Resolve(WithDigest(After(k, rs)), r) == Ok(WithDigest(After(k, rs + [r])))
  {
    var items, settled, id := k.contradictions, AllSettled(k.contradictions, rs), r.contradictionId;
    hide Find, IsDigest, IsReviewRef, IsInstant, Offers, RequestFor, Admissible, NewlySettled, ResolveItems;
    SettledIds(items, rs);
    FindHolds(items, id);
    FindHolds(settled, id);
    if c :| c in items && c.contradictionId == id {
      var i :| 0 <= i < |items| && items[i] == c;
      assert settled[i] in settled;
      assert Find(settled, id) == Some(Settled(c, rs));
      AdmissibleMeans(items, r, c);
      ConsistentStep(items, rs, r);
      var q := RequestFor(rs, id);
      if q.Some? {
        AdmissibleMeans(items, q.value, c);
      }
      if Settled(c, rs).resolution.Some? {
        SameWhenSettled(k, rs, r, c);
      } else {
        StepWhenOpen(k, rs, r, c);
      }
    } else {
      NoSuchContradiction(items, rs, r);
      assert Find(settled, id).None? by {
        forall s | s in settled
          ensures s.contradictionId != id
        {
          var i :| 0 <= i < |settled| && settled[i] == s;
          assert items[i] in items;
        }
      }
    }
  }

  lemma SettledIds(items: seq<Contradiction>, rs: seq<Request>)
    requires DistinctIds(items)
    ensures DistinctIds(AllSettled(items, rs))
  {
  }

  lemma AdmissibleMeans(items: seq<Contradiction>, r: Request, c: Contradiction)
    requires DistinctIds(items) && c in items && c.contradictionId == r.contradictionId
    ensures Admissible(items, r) <==>
              && IsDigest(r.selectedValueDigest) && IsReviewRef(r.humanReviewRef) && IsInstant(r.resolvedAt)
              && Offers(c.alternatives, r.selectedValueDigest)
              && (c.resolution.Some? ==> c.resolution.value == ResolutionOf(r))
  {
    hide IsDigest, IsReviewRef, IsInstant, Offers;
    FindHolds(items, r.contradictionId);
  }

  lemma NoSuchContradiction(items: seq<Contradiction>, rs: seq<Request>, r: Request)
    requires forall c :: c in items ==> c.contradictionId != r.contradictionId
    ensures !Consistent(items, rs + [r])
  {
    assert r in rs + [r];
  }

  lemma ConsistentStep(items: seq<Contradiction>, rs: seq<Request>, r: Request)
    requires Consistent(items, rs)
    ensures Consistent(items, rs + [r]) <==>
              Admissible(items, r) &&
              (RequestFor(rs, r.contradictionId).Some? ==> RequestFor(rs, r.contradictionId).value == r)
  {
    hide Admissible;
    assert r in rs + [r];
    var q := RequestFor(rs, r.contradictionId);
    if q.Some? {
      assert q.value in rs + [r];
    }
  }

  lemma SameWhenSettled(k: Contents, rs: seq<Request>, r: Request, c: Contradiction)
    requires DistinctIds(k.contradictions) && Consistent(k.contradictions, rs)
    requires c in k.contradictions && c.contradictionId == r.contradictionId && Settled(c, rs).resolution.Some?
    ensures After(k, rs + [r]) == After(k, rs)
  {
    hide RequestFor, Consistent;
    var items := k.contradictions;
    forall d | d in items
      ensures Settled(d, rs + [r]) == Settled(d, rs)
      ensures d.resolution.None? ==>
                RequestFor(rs + [r], d.contradictionId).Some? == RequestFor(rs, d.contradictionId).Some?
    {
      RequestForSnoc(rs, r, d.contradictionId);
      FindHolds(items, r.contradictionId);
    }
    assert AllSettled(items, rs + [r]) == AllSettled(items, rs);
    assert NewlySettled(items, rs + [r]) == NewlySettled(items, rs);
  }

  lemma StepWhenOpen(k: Contents, rs: seq<Request>, r: Request, c: Contradiction)
    requires DistinctIds(k.contradictions)
    requires c in k.contradictions && c.contradictionId == r.contradictionId && Settled(c, rs).resolution.None?
    ensures After(k, rs + [r]) ==
              After(k, rs).(
                generation := After(k, rs).generation + 1,
                contradictions := ResolveItems(AllSettled(k.contradictions, rs), r))
  {
    hide RequestFor;
    var items := k.contradictions;
    forall d | d in items
      ensures Settled(d, rs + [r]) == ResolveItem(Settled(d, rs), r)
      ensures RequestFor(rs + [r], d.contradictionId).Some? <==>
                RequestFor(rs, d.contradictionId).Some? || d.contradictionId == r.contradictionId
    {
      RequestForSnoc(rs, r, d.contradictionId);
      FindHolds(items, r.contradictionId);
    }
    assert AllSettled(items, rs + [r]) == ResolveItems(AllSettled(items, rs), r);
    assert NewlySettled(items, rs + [r]) == NewlySettled(items, rs) + {r.contradictionId};
    assert r.contradictionId !in NewlySettled(items, rs);
  }

  /** A run is accepted exactly when it is consistent, and then it amounts to one simultaneous change. */
  lemma {:induction false} RunIsOneChange(k: Contents, rs: seq<Request>)
    requires DistinctIds(k.contradictions)
    ensures ResolveAll(WithDigest(k), rs).Ok? <==> Consistent(k.contradictions, rs)
    ensures Consistent(k.contradictions, rs) ==> ResolveAll(WithDigest(k), rs) == Ok(WithDigest(After(k, rs)))
    decreases |rs|
  {
    hide Resolve, Admissible;
    if rs == [] {
      assert AllSettled(k.contradictions, rs) == k.contradictions;
      assert NewlySettled(k.contradictions, rs) == {};
    } else {
      var init, last := rs[..|rs| - 1], rs[|rs| - 1];
      assert rs == init + [last];
      RunIsOneChange(k, init);
      if Consistent(k.contradictions, init) {
        ResolveStep(k, init, last);
      }
    }
  }

  /** Resolutions commute: two runs of the same requests, in any order and with any repetitions, are
      accepted together and give the same package, digest included. */
  lemma ResolutionsCommute(k: Contents, rs: seq<Request>, qs: seq<Request>)
    requires DistinctIds(k.contradictions)
    requires forall r :: r in rs <==> r in qs
    ensures ResolveAll(WithDigest(k), rs).Ok? == ResolveAll(WithDigest(k), qs).Ok?
    ensures ResolveAll(WithDigest(k), rs).Ok? ==> ResolveAll(WithDigest(k), rs) == ResolveAll(WithDigest(k), qs)
  {
    hide ResolveAll, Admissible;
    RunIsOneChange(k, rs);
    RunIsOneChange(k, qs);
    if Consistent(k.contradictions, rs) {
      forall id
        ensures RequestFor(rs, id) == RequestFor(qs, id)
      {
      }
      assert AllSettled(k.contradictions, rs) == AllSettled(k.contradictions, qs);
      assert NewlySettled(k.contradictions, rs) == NewlySettled(k.contradictions, qs);
    }
  }

  /** Facts and sources never change; the generation counts the contradictions the run settled. */
  lemma RunKeepsFacts(k: Contents, rs: seq<Request>)
    requires DistinctIds(k.contradictions) && ResolveAll(WithDigest(k), rs).Ok?
    ensures var after := ResolveAll(WithDigest(k), rs).value;
            && after == WithDigest(after.contents)
            && after.contents.facts == k.facts && after.contents.sources == k.sources
            && after.contents.generation == k.generation + |Unsettled(k.contradictions) - Unsettled(after.contents.contradictions)|
  {
    hide ResolveAll, Consistent;
    RunIsOneChange(k, rs);
    var items, settled := k.contradictions, AllSettled(k.contradictions, rs);
    forall id
      ensures id in NewlySettled(items, rs) <==> id in Unsettled(items) && id !in Unsettled(settled)
    {
      NewlySettledIff(items, rs, id);
    }
    assert NewlySettled(items, rs) == Unsettled(items) - Unsettled(settled);
  }

  function Unsettled(items: seq<Contradiction>): set<ContradictionId> {
    set c | c in items && c.resolution.None? :: c.contradictionId
  }

  lemma NewlySettledIff(items: seq<Contradiction>, rs: seq<Request>, id: ContradictionId)
    requires DistinctIds(items)
    ensures id in NewlySettled(items, rs) <==> id in Unsettled(items) && id !in Unsettled(AllSettled(items, rs))
  {
    hide RequestFor;
    var settled := AllSettled(items, rs);
    if id in Unsettled(items) {
      var c :| c in items && c.resolution.None? && c.contradictionId == id;
      var i :| 0 <= i < |items| && items[i] == c;
      SettledIds(items, rs);
      FindHolds(items, id);
      FindHolds(settled, id);
      assert settled[i] in settled;
    }
  }

  // ---- What a package answers ----

  function FactNamed(facts: seq<Fact>, factKey: string): Option<Fact> {
    if facts == [] then None else if facts[0].factKey == factKey then Some(facts[0]) else FactNamed(facts[1..], factKey)
  }

  function ContradictionNamed(items: seq<Contradiction>, factKey: string): Option<Contradiction> {
    if items == [] then None
    else if items[0].factKey == factKey then Some(items[0])
    else ContradictionNamed(items[1..], factKey)
  }

  function ValueWith(alternatives: seq<Alternative>, valueDigest: string): Option<Value> {
    if alternatives == [] then None
    else if alternatives[0].valueDigest == valueDigest then Some(alternatives[0].value)
    else ValueWith(alternatives[1..], valueDigest)
  }

  function SelectedFact(k: Contents, factKey: string): Option<Value> {
    match FactNamed(k.facts, factKey)
    case None => None
    case Some(fact) =>
      if |fact.alternatives| == 1 then Some(fact.alternatives[0].value)
      else
        match ContradictionNamed(k.contradictions, factKey)
        case None => None
        case Some(c) =>
          if c.resolution.None? then None else ValueWith(fact.alternatives, c.resolution.value.selectedValueDigest)
  }

  ghost predicate DistinctFacts(facts: seq<Fact>) {
    forall i, j :: 0 <= i < j < |facts| ==> facts[i].factKey != facts[j].factKey
  }

  /** The contradiction stands for this fact, and its resolution, if any, selects one of its values. */
  ghost predicate StandsFor(c: Contradiction, f: Fact) {
    && f.Contradictory() && c.(resolution := None) == ContradictionOf(f)
    && (c.resolution.Some? ==> Offers(f.alternatives, c.resolution.value.selectedValueDigest))
  }

  /** What building a package establishes and every resolution keeps. */
  ghost predicate WellFormed(k: Contents) {
    && DistinctFacts(k.facts) && DistinctIds(k.contradictions)
    && (forall c :: c in k.contradictions ==> exists f :: f in k.facts && StandsFor(c, f))
    && (forall f :: f in k.facts && f.Contradictory() ==> exists c :: c in k.contradictions && StandsFor(c, f))
  }

  lemma {:induction false} FactNamedHolds(facts: seq<Fact>, f: Fact)
    requires DistinctFacts(facts) && f in facts
    ensures FactNamed(facts, f.factKey) == Some(f)
  {
    if facts[0] != f {
      assert f in facts[1..];
      FactNamedHolds(facts[1..], f);
      var i :| 0 <= i < |facts| && facts[i] == f;
      assert i != 0;
    }
  }

  lemma {:induction false} FactNamedFound(facts: seq<Fact>, factKey: string)
    ensures FactNamed(facts, factKey).Some? ==>
              FactNamed(facts, factKey).value in facts && FactNamed(facts, factKey).value.factKey == factKey
  {
    if facts != [] {
      FactNamedFound(facts[1..], factKey);
    }
  }

  lemma {:induction false} ContradictionNamedHolds(items: seq<Contradiction>, c: Contradiction)
    requires c in items
    requires forall d :: d in items && d.factKey == c.factKey ==> d == c
    ensures ContradictionNamed(items, c.factKey) == Some(c)
  {
    assert items[0] in items;
    if items[0].factKey != c.factKey {
      ContradictionNamedHolds(items[1..], c);
    }
  }

  lemma {:induction false} ValueWithHolds(alternatives: seq<Alternative>, valueDigest: string)
    ensures ValueWith(alternatives, valueDigest).Some? <==> Offers(alternatives, valueDigest)
    ensures ValueWith(alternatives, valueDigest).Some? ==>
              exists a :: a in alternatives && a.valueDigest == valueDigest
                && a.value == ValueWith(alternatives, valueDigest).value
  {
    if alternatives != [] {
      ValueWithHolds(alternatives[1..], valueDigest);
      assert alternatives == [alternatives[0]] + alternatives[1..];
    }
  }

  lemma OneContradictionPerFact(k: Contents, c: Contradiction, d: Contradiction)
    requires WellFormed(k) && c in k.contradictions && d in k.contradictions && c.factKey == d.factKey
    ensures c == d
  {
    hide Offers;
    var f :| f in k.facts && StandsFor(c, f);
    var g :| g in k.facts && StandsFor(d, g);
    FactNamedHolds(k.facts, f);
    FactNamedHolds(k.facts, g);
    FindHolds(k.contradictions, c.contradictionId);
  }

  /** A fact has a selected value exactly when it is not an unresolved contradiction, and the value is
      one that some source claims: the only one, or the one the resolution names. */
  lemma SelectedFactIff(k: Contents, f: Fact)
    requires WellFormed(k) && f in k.facts
    ensures SelectedFact(k, f.factKey).Some? <==>
              !exists c :: c in k.contradictions && c.factKey == f.factKey && c.resolution.None?
    ensures SelectedFact(k, f.factKey).Some? ==>
              exists a :: a in f.alternatives && a.value == SelectedFact(k, f.factKey).value
                && (f.Contradictory() ==>
                     exists c :: c in k.contradictions && c.factKey == f.factKey && c.resolution.Some?
                       && c.resolution.value.selectedValueDigest == a.valueDigest)
  {
    hide FactNamed, ContradictionNamed, ValueWith, Offers;
    FactNamedHolds(k.facts, f);
    forall c | c in k.contradictions && c.factKey == f.factKey
      ensures f.Contradictory()
    {
      var g :| g in k.facts && StandsFor(c, g);
      FactNamedHolds(k.facts, g);
    }
    if f.Contradictory() {
      var c :| c in k.contradictions && StandsFor(c, f);
      forall d | d in k.contradictions && d.factKey == c.factKey
        ensures d == c
      {
        OneContradictionPerFact(k, c, d);
      }
      ContradictionNamedHolds(k.contradictions, c);
      if c.resolution.Some? {
        ValueWithHolds(f.alternatives, c.resolution.value.selectedValueDigest);
      }
    } else {
      assert f.alternatives[0] in f.alternatives;
    }
  }

  lemma RunKeepsWellFormed(k: Contents, rs: seq<Request>)
    requires WellFormed(k) && ResolveAll(WithDigest(k), rs).Ok?
    ensures WellFormed(ResolveAll(WithDigest(k), rs).value.contents)
  {
    hide ResolveAll, Resolve, Offers, RequestFor;
    RunIsOneChange(k, rs);
    var items, settled := k.contradictions, AllSettled(k.contradictions, rs);
    SettledIds(items, rs);
    forall s | s in settled
      ensures exists f :: f in k.facts && StandsFor(s, f)
    {
      var i :| 0 <= i < |settled| && settled[i] == s;
      assert items[i] in items;
      var f :| f in k.facts && StandsFor(items[i], f);
      SettledStandsFor(items, rs, items[i], f);
    }
    forall f | f in k.facts && f.Contradictory()
      ensures exists c :: c in settled && StandsFor(c, f)
    {
      var c :| c in items && StandsFor(c, f);
      var i :| 0 <= i < |items| && items[i] == c;
      assert settled[i] in settled;
      SettledStandsFor(items, rs, c, f);
    }
  }

  lemma SettledStandsFor(items: seq<Contradiction>, rs: seq<Request>, c: Contradiction, f: Fact)
    requires DistinctIds(items) && Consistent(items, rs) && c in items && StandsFor(c, f)
    ensures StandsFor(Settled(c, rs), f)
  {
    hide Offers, IsDigest, IsReviewRef, IsInstant;
    var r := RequestFor(rs, c.contradictionId);
    if r.Some? {
      AdmissibleMeans(items, r.value, c);
    }
  }

  /** Once no contradiction is left unresolved, every fact of the package has a selected value. */
  lemma ResolvedPackageAnswersEverything(k: Contents, rs: seq<Request>, f: Fact)
    requires WellFormed(k) && ResolveAll(WithDigest(k), rs).Ok? && f in k.facts
    requires forall c :: c in ResolveAll(WithDigest(k), rs).value.contents.contradictions ==> c.resolution.Some?
    ensures SelectedFact(ResolveAll(WithDigest(k), rs).value.contents, f.factKey).Some?
  {
    hide ResolveAll, SelectedFact, WellFormed;
    assert DistinctIds(k.contradictions) by { WellFormedIds(k); }
    RunKeepsFacts(k, rs);
    RunKeepsWellFormed(k, rs);
    SelectedFactIff(ResolveAll(WithDigest(k), rs).value.contents, f);
  }

  lemma WellFormedIds(k: Contents)
    requires WellFormed(k)
    ensures DistinctIds(k.contradictions)
  {
  }

  // ---- Building establishes well-formedness ----

  lemma {:induction false} ContradictionsHold(facts: seq<Fact>)
    requires DistinctFacts(facts)
    ensures DistinctIds(Contradictions(facts))
    ensures forall c :: c in Contradictions(facts) <==> exists f :: f in facts && f.Contradictory() && c == ContradictionOf(f)
  {
    if facts != [] {
      assert facts == [facts[0]] + facts[1..];
      ContradictionsHold(facts[1..]);
      forall c | c in Contradictions(facts[1..])
        ensures c.contradictionId != ContradictionOf(facts[0]).contradictionId
      {
        var f :| f in facts[1..] && c == ContradictionOf(f);
        var i :| 0 <= i < |facts[1..]| && facts[1..][i] == f;
        assert facts[i + 1].factKey != facts[0].factKey;
      }
    }
  }

  lemma BuildIsWellFormed(
    workspaceId: string, databaseId: string, generation: int, raws: seq<Source>, digest: Value -> string)
    requires Build(workspaceId, databaseId, generation, raws, digest).Ok?
    ensures var p := Build(workspaceId, databaseId, generation, raws, digest).value;
            p == WithDigest(p.contents) && WellFormed(p.contents) && NormalSources(p.contents.sources)
  {
    hide MergedSources, AllClaims, KnowledgeFacts, Less, Import;
    var k := Build(workspaceId, databaseId, generation, raws, digest).value.contents;
    MergedAreNormal(raws, databaseId);
    FactsHold(Tabulate(AllClaims(k.sources)), digest);
    forall i, j | 0 <= i < j < |k.facts|
      ensures k.facts[i].factKey != k.facts[j].factKey
    {
      LessIrreflexive(k.facts[i].factKey);
    }
    ContradictionsHold(k.facts);
    forall c | c in k.contradictions
      ensures exists f :: f in k.facts && StandsFor(c, f)
    {
      var f :| f in k.facts && f.Contradictory() && c == ContradictionOf(f);
      assert StandsFor(c, f);
    }
    forall f | f in k.facts && f.Contradictory()
      ensures exists c :: c in k.contradictions && StandsFor(c, f)
    {
      assert StandsFor(ContradictionOf(f), f);
    }
  }
}
