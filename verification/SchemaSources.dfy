/** Schema sources of a database: import into normal form, and the merge of many
    sources into one list. */
module SchemaSources {
  import opened Results
  import opened CodeUnits
  import opened Text

  datatype Column = Column(name: string, dataType: string, nullable: bool, primaryKey: bool, unique: bool)

  datatype Entity = Entity(schema: string, name: string, type': string, columns: seq<Column>)

  datatype Material = Material(
    sourceId: string,
    kind: string,
    databaseId: string,
    revision: string,
    capturedAt: string,
    logicalRef: string,
    complete: bool,
    entities: seq<Entity>)

  /** SHA-256 over the canonical JSON of a source, taken as injective. */
  datatype SourceDigest = Sha256(material: Material)

  datatype Source = Source(material: Material, sourceDigest: SourceDigest)

  const SOURCE_KINDS: seq<string> := ["er", "ddl", "migration", "orm", "introspection"]
  const SENSITIVE_WORDS: seq<string> := ["password", "credential", "token", "secret"]

  predicate IsWord(s: string, minimum: nat, maximum: nat, more: string) {
    minimum <= |s| <= maximum && 0 < |s| && IsLower(s[0]) && Every(s, c => IsLower(c) || IsDigit(c) || c in more)
  }

  predicate IsIdentifier(s: string) { IsWord(s, 1, 127, "_") }

  predicate IsStableId(s: string) { IsWord(s, 3, 128, "._-") }

  predicate IsColumnName(s: string) { s == "_id" || IsIdentifier(s) }

  predicate IsDataType(s: string) {
    0 < |s| <= 127 && (IsLower(s[0]) || IsUpper(s[0])) && Every(s, c => IsAlnum(c) || c in "_(), ")
  }

  predicate Contains(s: string, part: string) {
    part <= s || (s != [] && Contains(s[1..], part))
  }

  predicate IsLogicalRef(s: string) {
    IsWord(s, 3, 256, "._:/-") && !Contains(s, "://") &&
    forall w :: w in SENSITIVE_WORDS ==> !Contains(Lower(s), w)
  }

  /** `s.trim().replace(/\s+/g, " ")` for a text whose only white space is the blank. */
  function Squeeze(s: string): string {
    if s == [] then []
    else if s[0] == ' ' && (|s| == 1 || s[1] == ' ') then Squeeze(s[1..])
    else [s[0]] + Squeeze(s[1..])
  }

  function TypeText(s: string): string { Lower(Squeeze(s)) }

  function ImportColumn(c: Column): Result<Column> {
    if !IsColumnName(c.name) || !IsDataType(c.dataType) then Err("VES_DATABASE_SCHEMA_SOURCE_INVALID")
    else Ok(c.(dataType := TypeText(c.dataType)))
  }

  function ColumnName(c: Column): string { c.name }

  function ImportEntity(e: Entity): Result<Entity> {
    if !IsIdentifier(e.schema) || !IsIdentifier(e.name) || e.type' !in ["table", "view"] then
      Err("VES_DATABASE_SCHEMA_SOURCE_INVALID")
    else if e.columns == [] || |e.columns| > 1024 then Err("VES_DATABASE_SCHEMA_SOURCE_INVALID")
    else
      var columns := Traverse(e.columns, ImportColumn);
      if columns.Err? then Err(columns.code)
      else if |KeySet(columns.value, ColumnName)| != |columns.value| then Err("VES_DATABASE_SCHEMA_SOURCE_INVALID")
      else Ok(e.(columns := SortBy(columns.value, ColumnName)))
  }

  function EntityKey(e: Entity): string { e.schema + "." + e.name }

  /** The importer of the kind the input names; there is one for each of the five kinds. */
  function Import(input: Material): Result<Source> {
    if input.kind !in SOURCE_KINDS then Err("VES_DATABASE_SCHEMA_SOURCE_KIND_INVALID")
    else if !IsLogicalRef(input.logicalRef) || input.entities == [] || |input.entities| > 512 then
      Err("VES_DATABASE_SCHEMA_SOURCE_INVALID")
    else
      var entities := Traverse(input.entities, ImportEntity);
      if entities.Err? then Err(entities.code)
      else if |KeySet(entities.value, EntityKey)| != |entities.value| then Err("VES_DATABASE_SCHEMA_SOURCE_INVALID")
      else if !IsStableId(input.sourceId) || !IsStableId(input.databaseId) || !IsStableId(input.revision)
              || !IsInstant(input.capturedAt) then
        Err("VES_DATABASE_SCHEMA_SOURCE_INVALID")
      else
        var material := input.(entities := SortBy(entities.value, EntityKey));
        Ok(Source(material, Sha256(material)))
  }

  // ---- Import is a normal form ----

  lemma {:induction false} SqueezeTwice(s: string)
    ensures Squeeze(Squeeze(s)) == Squeeze(s)
    ensures forall c :: c in Squeeze(s) ==> c in s
    ensures |Squeeze(s)| <= |s|
    ensures s != [] && s[0] != ' ' ==> Squeeze(s) != [] && Squeeze(s)[0] == s[0]
    ensures s != [] && s[0] == ' ' && Squeeze(s) != [] && Squeeze(s)[0] == ' ' ==>
              |Squeeze(s)| > 1 && Squeeze(s)[1] != ' '
  {
    if s != [] {
      SqueezeTwice(s[1..]);
      var t := Squeeze(s);
      if !(s[0] == ' ' && (|s| == 1 || s[1] == ' ')) {
        assert t[1..] == Squeeze(s[1..]);
      }
    }
  }

  lemma {:induction false} LowerSqueeze(s: string)
    ensures Squeeze(Lower(s)) == Lower(Squeeze(s))
  {
    if s == [] {
      assert Lower(s) == [];
    } else {
      LowerSqueeze(s[1..]);
      assert Lower(s)[1..] == Lower(s[1..]);
      assert Lower(s) == [ToLower(s[0])] + Lower(s[1..]);
      var head, tail := [s[0]], Squeeze(s[1..]);
      assert Lower(head + tail) == [ToLower(s[0])] + Lower(tail);
    }
  }

  lemma LowerTwice(s: string)
    ensures Lower(Lower(s)) == Lower(s)
  {
  }

  lemma TypeTextTwice(s: string)
    requires IsDataType(s)
    ensures IsDataType(TypeText(s)) && TypeText(TypeText(s)) == TypeText(s)
  {
    SqueezeTwice(s);
    LowerSqueeze(Squeeze(s));
    LowerTwice(Squeeze(s));
    TypeTextAllowed(s);
  }

  lemma TypeTextAllowed(s: string)
    requires IsDataType(s)
    ensures IsDataType(TypeText(s))
  {
    hide Squeeze;
    SqueezeTwice(s);
    var t, u := TypeText(s), Squeeze(s);
    forall c | c in t
      ensures IsAlnum(c) || c in "_(), "
    {
      var i :| 0 <= i < |t| && t[i] == c;
      assert u[i] in u;
      assert u[i] in s;
    }
    assert t[0] == ToLower(u[0]);
  }

  lemma ImportColumnTwice(c: Column)
    requires ImportColumn(c).Ok?
    ensures ImportColumn(ImportColumn(c).value) == ImportColumn(c)
  {
    hide IsDataType, TypeText, IsColumnName;
    TypeTextTwice(c.dataType);
  }

  /** A sorted list of imported items imports to itself. */
  lemma SortedImportsAreFixed<T>(items: seq<T>, imported: T -> Result<T>, key: T -> string)
    requires Traverse(items, imported).Ok?
    requires forall x :: x in items && imported(x).Ok? ==> imported(imported(x).value) == imported(x)
    requires |KeySet(Traverse(items, imported).value, key)| == |Traverse(items, imported).value|
    ensures var sorted := SortBy(Traverse(items, imported).value, key);
            && |sorted| == |items| && Traverse(sorted, imported) == Ok(sorted) && SortBy(sorted, key) == sorted
            && |KeySet(sorted, key)| == |sorted| && StrictlySorted(sorted, key)
  {
    hide Less, SortBy, DistinctKeys, Traverse, StrictlySorted;
    var out: seq<T> := Traverse(items, imported).value;
    var sorted: seq<T> := SortBy(out, key);
    TraverseAt(items, imported);
    SortMultiset(out, key);
    forall n: T | n in sorted
      ensures imported(n) == Ok(n)
    {
      assert n in multiset(sorted) && n in multiset(out);
      var i :| 0 <= i < |out| && out[i] == n;
      assert items[i] in items;
    }
    TraverseFixed(sorted, imported);
    DistinctIffSetSize(out, key);
    SortStrict(out, key);
    SortKeySet(out, key);
    SortFixed(sorted, key);
  }

  lemma ImportEntityTwice(e: Entity)
    requires ImportEntity(e).Ok?
    ensures ImportEntity(ImportEntity(e).value) == ImportEntity(e)
  {
    hide ImportColumn, Traverse, SortBy, IsIdentifier;
    forall c | c in e.columns && ImportColumn(c).Ok?
      ensures ImportColumn(ImportColumn(c).value) == ImportColumn(c)
    {
      ImportColumnTwice(c);
    }
    SortedImportsAreFixed(e.columns, ImportColumn, ColumnName);
  }

  /** Importing an imported source gives it back, digest and all. */
  lemma ImportTwice(input: Material)
    requires Import(input).Ok?
    ensures Import(Import(input).value.material) == Import(input)
  {
    hide ImportEntity, Traverse, SortBy, IsStableId, IsLogicalRef, IsInstant;
    forall e | e in input.entities && ImportEntity(e).Ok?
      ensures ImportEntity(ImportEntity(e).value) == ImportEntity(e)
    {
      ImportEntityTwice(e);
    }
    SortedImportsAreFixed(input.entities, ImportEntity, EntityKey);
  }

  /** The digest recheck of a package accepts an imported source, and nothing else about it changes. */
  lemma RecheckAccepts(input: Material)
    requires Import(input).Ok?
    ensures KnowledgeSource(Import(input).value, input.databaseId) == Import(input)
  {
    hide ImportEntity, Traverse, SortBy, IsStableId, IsLogicalRef, IsInstant;
    ImportTwice(input);
  }

  /** What the recheck passes is determined by the digest alone, and passes again unchanged. */
  lemma RecheckReturnsTheDigested(raw: Source, databaseId: string)
    requires KnowledgeSource(raw, databaseId).Ok?
    ensures var s := KnowledgeSource(raw, databaseId).value;
            && s == Source(raw.sourceDigest.material, raw.sourceDigest)
            && s.material.databaseId == databaseId
            && KnowledgeSource(s, databaseId) == Ok(s)
  {
    hide ImportEntity, Traverse, SortBy, IsStableId, IsLogicalRef, IsInstant;
    ImportTwice(raw.material);
  }

  // ---- Merging sources ----

  /** A source offered to a package is imported again, and must carry the digest of the result. */
  function KnowledgeSource(raw: Source, databaseId: string): Result<Source> {
    if raw.material.kind !in SOURCE_KINDS then Err("VES_DATABASE_KNOWLEDGE_INVALID")
    else
      match Import(raw.material)
      case Err(code) => Err(code)
      case Ok(normalized) =>
        if normalized.material.databaseId != databaseId || normalized.sourceDigest != raw.sourceDigest then
          Err("VES_DATABASE_KNOWLEDGE_INVALID")
        else Ok(normalized)
  }

  /** The position of a source identity in the list, or its length. */
  function PositionOf(kept: seq<Source>, sourceId: string): (at: nat)
    ensures at <= |kept|
    ensures at < |kept| ==> kept[at].material.sourceId == sourceId
    ensures forall i :: 0 <= i < at ==> kept[i].material.sourceId != sourceId
  {
    if kept == [] || kept[0].material.sourceId == sourceId then 0 else 1 + PositionOf(kept[1..], sourceId)
  }

  /** `Map.set` after the conflict check: a known identity keeps its place. */
  function Keep(kept: seq<Source>, s: Source): Result<seq<Source>> {
    var at := PositionOf(kept, s.material.sourceId);
    if at == |kept| then Ok(kept + [s])
    else if kept[at].sourceDigest != s.sourceDigest then Err("VES_DATABASE_SCHEMA_SOURCE_CONFLICT")
    else Ok(kept[at := s])
  }

  /** The values of the identity map after the given sources, in insertion order. */
  function Collect(raws: seq<Source>, databaseId: string): Result<seq<Source>> {
    if raws == [] then Ok([])
    else
      match Collect(raws[..|raws| - 1], databaseId)
      case Err(code) => Err(code)
      case Ok(kept) =>
        match KnowledgeSource(raws[|raws| - 1], databaseId)
        case Err(code) => Err(code)
        case Ok(s) => Keep(kept, s)
  }

  function MergedSources(raws: seq<Source>, databaseId: string): Result<seq<Source>> {
    match Collect(raws, databaseId)
    case Err(code) => Err(code)
    case Ok(kept) => Ok(SortBy(kept, KindThenId))
  }

  lemma {:induction false} CollectFailsEarly(raws: seq<Source>, databaseId: string, i: nat)
    requires i <= |raws| && Collect(raws[..i], databaseId).Err?
    ensures Collect(raws, databaseId) == Err(Collect(raws[..i], databaseId).code)
    decreases |raws|
  {
    hide KnowledgeSource, Keep;
    if i < |raws| {
      var init := raws[..|raws| - 1];
      assert init[..i] == raws[..i];
      CollectFailsEarly(init, databaseId, i);
    } else {
      assert raws[..i] == raws;
    }
  }

  method KnowledgeSources(raws: seq<Source>, databaseId: string) returns (out: Result<seq<Source>>)
    ensures out == MergedSources(raws, databaseId)
  {
    hide KnowledgeSource, SortBy;
    var kept: seq<Source> := [];
    for i := 0 to |raws|
      invariant Collect(raws[..i], databaseId) == Ok(kept)
    {
      assert raws[..i + 1][..i] == raws[..i] && raws[..i + 1][i] == raws[i];
      var source := KnowledgeSource(raws[i], databaseId);
      if source.Err? {
        CollectFailsEarly(raws, databaseId, i + 1);
        return Err(source.code);
      }
      var at := PositionOf(kept, source.value.material.sourceId);
      if at < |kept| {
        if kept[at].sourceDigest != source.value.sourceDigest {
          CollectFailsEarly(raws, databaseId, i + 1);
          return Err("VES_DATABASE_SCHEMA_SOURCE_CONFLICT");
        }
        kept := kept[at := source.value];
      } else {
        kept := kept + [source.value];
      }
    }
    assert raws[..|raws|] == raws;
    out := Ok(SortBy(kept, KindThenId));
  }

  const SEPARATOR := '\0'

  /** Kind first, then source identity within a kind. */
  function KindThenId(s: Source): string { s.material.kind + [SEPARATOR] + s.material.sourceId }

  // ---- The merge depends only on which sources were given ----

  function SourceId(s: Source): string { s.material.sourceId }

  ghost predicate Yields(raws: seq<Source>, databaseId: string, s: Source) {
    exists r :: r in raws && KnowledgeSource(r, databaseId) == Ok(s)
  }

  /** Every source passes the recheck, and no identity carries two different sources. */
  ghost predicate Mergeable(raws: seq<Source>, databaseId: string) {
    && (forall r :: r in raws ==> KnowledgeSource(r, databaseId).Ok?)
    && (forall s, t :: Yields(raws, databaseId, s) && Yields(raws, databaseId, t) && SourceId(s) == SourceId(t) ==>
         s == t)
  }

  ghost predicate Holds(kept: seq<Source>, raws: seq<Source>, databaseId: string) {
    DistinctKeys(kept, SourceId) && forall s :: s in kept <==> Yields(raws, databaseId, s)
  }

  /** Adding one rechecked source to a merged list: it conflicts exactly when another source already
      carries its identity, and a repetition changes nothing. */
  lemma KeepStep(kept: seq<Source>, s: Source)
    requires DistinctKeys(kept, SourceId)
    requires forall k :: k in kept ==> k == Source(k.sourceDigest.material, k.sourceDigest)
    requires s == Source(s.sourceDigest.material, s.sourceDigest)
    ensures Keep(kept, s).Ok? <==> forall k :: k in kept && SourceId(k) == SourceId(s) ==> k == s
    ensures Keep(kept, s).Ok? ==>
              DistinctKeys(Keep(kept, s).value, SourceId) &&
              forall k :: k in Keep(kept, s).value <==> k in kept || k == s
  {
    var at := PositionOf(kept, SourceId(s));
    if at < |kept| {
      assert kept[at] in kept;
      if kept[at].sourceDigest == s.sourceDigest {
        assert kept[at := s] == kept;
        forall k | k in kept && SourceId(k) == SourceId(s)
          ensures k == s
        {
          var i :| 0 <= i < |kept| && kept[i] == k;
          assert i == at;
        }
      }
    }
  }

  lemma {:induction false} CollectHolds(raws: seq<Source>, databaseId: string)
    ensures Collect(raws, databaseId).Ok? <==> Mergeable(raws, databaseId)
    ensures Collect(raws, databaseId).Ok? ==> Holds(Collect(raws, databaseId).value, raws, databaseId)
    decreases |raws|
  {
    hide KnowledgeSource, Keep;
    if raws != [] {
      var init, last := raws[..|raws| - 1], raws[|raws| - 1];
      assert raws == init + [last];
      CollectHolds(init, databaseId);
      if Collect(init, databaseId).Ok? && KnowledgeSource(last, databaseId).Ok? {
        var kept, s := Collect(init, databaseId).value, KnowledgeSource(last, databaseId).value;
        forall r | r in raws && KnowledgeSource(r, databaseId).Ok?
          ensures var k := KnowledgeSource(r, databaseId).value; k == Source(k.sourceDigest.material, k.sourceDigest)
        {
          RecheckReturnsTheDigested(r, databaseId);
        }
        KeepStep(kept, s);
      }
    }
  }

  lemma KindsAreAboveSeparator(kind: string)
    requires kind in SOURCE_KINDS
    ensures forall c :: c in kind ==> SEPARATOR < c
  {
  }

  lemma SortKeyKeepsIdentity(a: Source, b: Source)
    requires a.material.kind in SOURCE_KINDS && b.material.kind in SOURCE_KINDS
    requires KindThenId(a) == KindThenId(b)
    ensures SourceId(a) == SourceId(b)
  {
    hide Less;
    KindsAreAboveSeparator(a.material.kind);
    KindsAreAboveSeparator(b.material.kind);
    LessJoined(SEPARATOR, a.material.kind, a.material.sourceId, b.material.kind, b.material.sourceId);
    LessJoined(SEPARATOR, b.material.kind, b.material.sourceId, a.material.kind, a.material.sourceId);
    LessIrreflexive(KindThenId(a));
    LessTotal(a.material.kind, b.material.kind);
    LessTotal(a.material.sourceId, b.material.sourceId);
  }

  lemma SortKeysAreDistinct(kept: seq<Source>)
    requires DistinctKeys(kept, SourceId)
    requires forall s :: s in kept ==> s.material.kind in SOURCE_KINDS
    ensures DistinctKeys(kept, KindThenId)
  {
    hide KindThenId;
    forall i, j | 0 <= i < j < |kept|
      ensures KindThenId(kept[i]) != KindThenId(kept[j])
    {
      assert kept[i] in kept && kept[j] in kept;
      assert SourceId(kept[i]) != SourceId(kept[j]);
      if KindThenId(kept[i]) == KindThenId(kept[j]) {
        SortKeyKeepsIdentity(kept[i], kept[j]);
      }
    }
  }

  /** What the merge returns, and when: the rechecked sources, each once, by kind and identity. */
  lemma MergedSourcesHold(raws: seq<Source>, databaseId: string)
    ensures MergedSources(raws, databaseId).Ok? <==> Mergeable(raws, databaseId)
    ensures MergedSources(raws, databaseId).Ok? ==>
              && Holds(MergedSources(raws, databaseId).value, raws, databaseId)
              && StrictlySorted(MergedSources(raws, databaseId).value, KindThenId)
  {
    CollectHolds(raws, databaseId);
    if Collect(raws, databaseId).Ok? {
      var kept := Collect(raws, databaseId).value;
      forall s | s in kept
        ensures s.material.kind in SOURCE_KINDS
      {
        var r :| r in raws && KnowledgeSource(r, databaseId) == Ok(s);
      }
      SortKeysAreDistinct(kept);
      hide KnowledgeSource, SortBy;
      SortMembers(kept, KindThenId);
      SortMultiset(kept, KindThenId);
      DistinctByMultiset(kept, SortBy(kept, KindThenId), SourceId);
      SortStrict(kept, KindThenId);
    }
  }

  /** The recheck makes the same of both. */
  ghost predicate RechecksAlike(r: Source, q: Source, databaseId: string) {
    KnowledgeSource(r, databaseId) == KnowledgeSource(q, databaseId)
    || (KnowledgeSource(r, databaseId).Err? && KnowledgeSource(q, databaseId).Err?)
  }

  ghost predicate Covered(raws: seq<Source>, others: seq<Source>, databaseId: string) {
    forall r :: r in raws ==> exists q :: q in others && RechecksAlike(r, q, databaseId)
  }

  lemma CoveredYields(raws: seq<Source>, others: seq<Source>, databaseId: string, s: Source)
    requires Covered(raws, others, databaseId) && Yields(raws, databaseId, s)
    ensures Yields(others, databaseId, s)
  {
    hide KnowledgeSource;
    var r :| r in raws && KnowledgeSource(r, databaseId) == Ok(s);
    var q :| q in others && RechecksAlike(r, q, databaseId);
  }

  lemma CoveredMerges(raws: seq<Source>, others: seq<Source>, databaseId: string)
    requires Covered(raws, others, databaseId) && Covered(others, raws, databaseId) && Mergeable(others, databaseId)
    ensures Mergeable(raws, databaseId)
  {
    hide KnowledgeSource, Covered, Yields;
    forall r | r in raws
      ensures KnowledgeSource(r, databaseId).Ok?
    {
      CoveredOk(raws, others, databaseId, r);
    }
    forall s, t | Yields(raws, databaseId, s) && Yields(raws, databaseId, t) && SourceId(s) == SourceId(t)
      ensures s == t
    {
      CoveredYields(raws, others, databaseId, s);
      CoveredYields(raws, others, databaseId, t);
    }
  }

  lemma CoveredOk(raws: seq<Source>, others: seq<Source>, databaseId: string, r: Source)
    requires Covered(raws, others, databaseId) && r in raws
    requires forall q :: q in others ==> KnowledgeSource(q, databaseId).Ok?
    ensures KnowledgeSource(r, databaseId).Ok?
  {
    hide KnowledgeSource;
  }

  /** The merge depends only on what the recheck makes of the sources: not on their order, not on
      repetition, and not on how each was written down. */
  lemma MergeIgnoresOrder(raws: seq<Source>, others: seq<Source>, databaseId: string)
    requires Covered(raws, others, databaseId) && Covered(others, raws, databaseId)
    ensures MergedSources(raws, databaseId).Ok? == MergedSources(others, databaseId).Ok?
    ensures MergedSources(raws, databaseId).Ok? ==>
              MergedSources(raws, databaseId) == MergedSources(others, databaseId)
  {
    hide KnowledgeSource, MergedSources, Less, Covered, Yields, Mergeable;
    MergedSourcesHold(raws, databaseId);
    MergedSourcesHold(others, databaseId);
    if MergedSources(raws, databaseId).Ok? {
      CoveredMerges(others, raws, databaseId);
      var a, b := MergedSources(raws, databaseId).value, MergedSources(others, databaseId).value;
      forall s
        ensures s in a <==> s in b
      {
        if Yields(raws, databaseId, s) {
          CoveredYields(raws, others, databaseId, s);
        }
        if Yields(others, databaseId, s) {
          CoveredYields(others, raws, databaseId, s);
        }
      }
      StrictUnique(a, b, KindThenId);
    } else if MergedSources(others, databaseId).Ok? {
      CoveredMerges(raws, others, databaseId);
    }
  }

  // ---- The order of entities and columns does not matter ----

  /** The same entities up to the order of entities and of the columns inside each. */
  ghost predicate SameEntity(a: Entity, b: Entity) {
    a == b.(columns := a.columns) && multiset(a.columns) == multiset(b.columns)
  }

  lemma {:induction false} TraverseMultiset<T, U>(xs: seq<T>, ys: seq<T>, f: T -> Result<U>)
    requires multiset(xs) == multiset(ys)
    ensures Traverse(xs, f).Ok? == Traverse(ys, f).Ok?
    ensures Traverse(xs, f).Ok? ==> multiset(Traverse(xs, f).value) == multiset(Traverse(ys, f).value)
    decreases |xs|
  {
    if xs == [] {
      assert |multiset(ys)| == |ys|;
    } else {
      assert xs[0] in multiset(ys);
      var i :| 0 <= i < |ys| && ys[i] == xs[0];
      var rest := ys[..i] + ys[i + 1..];
      assert ys == ys[..i] + [ys[i]] + ys[i + 1..];
      assert xs == [xs[0]] + xs[1..];
      assert multiset(ys) == multiset(ys[..i]) + multiset{ys[i]} + multiset(ys[i + 1..]);
      assert multiset(xs) == multiset{xs[0]} + multiset(xs[1..]);
      assert multiset(rest) == multiset(ys[..i]) + multiset(ys[i + 1..]);
      assert multiset(rest) == multiset(ys) - multiset{xs[0]};
      assert multiset(xs[1..]) == multiset(xs) - multiset{xs[0]};
      TraverseMultiset(xs[1..], rest, f);
      TraverseAround(ys[..i], ys[i], ys[i + 1..], f);
    }
  }

  lemma {:induction false} TraverseAround<T, U>(before: seq<T>, x: T, after: seq<T>, f: T -> Result<U>)
    ensures Traverse(before + [x] + after, f).Ok? <==> f(x).Ok? && Traverse(before + after, f).Ok?
    ensures Traverse(before + [x] + after, f).Ok? ==>
              multiset(Traverse(before + [x] + after, f).value) ==
              multiset{f(x).value} + multiset(Traverse(before + after, f).value)
    decreases |before|
  {
    var all, rest := before + [x] + after, before + after;
    if before == [] {
      assert all == [x] + after && rest == after;
    } else {
      TraverseAround(before[1..], x, after, f);
      assert all[1..] == before[1..] + [x] + after && rest[1..] == before[1..] + after;
    }
  }

  lemma ImportEntityIgnoresOrder(a: Entity, b: Entity)
    requires SameEntity(a, b)
    ensures ImportEntity(a) == ImportEntity(b) || (ImportEntity(a).Err? && ImportEntity(b).Err?)
  {
    hide ImportColumn, IsIdentifier, Traverse, SortBy;
    assert |a.columns| == |multiset(a.columns)| == |b.columns|;
    TraverseMultiset(a.columns, b.columns, ImportColumn);
    if Traverse(a.columns, ImportColumn).Ok? {
      SortedByMultiset(Traverse(a.columns, ImportColumn).value, Traverse(b.columns, ImportColumn).value, ColumnName);
    }
  }

  lemma SortedByMultiset<T>(xs: seq<T>, ys: seq<T>, key: T -> string)
    requires multiset(xs) == multiset(ys)
    ensures |xs| == |ys| && KeySet(xs, key) == KeySet(ys, key)
    ensures |KeySet(xs, key)| == |xs| ==> SortBy(xs, key) == SortBy(ys, key)
  {
    hide SortBy;
    assert |xs| == |multiset(xs)| == |ys|;
    assert forall x :: x in xs ==> x in multiset(ys);
    assert forall x :: x in ys ==> x in multiset(xs);
    DistinctIffSetSize(xs, key);
    DistinctIffSetSize(ys, key);
    if |KeySet(xs, key)| == |xs| {
      SortCanonical(xs, ys, key);
    }
  }

  /** Two materials that list the same entities, each with the same columns, in different orders
      import to the same source. */
  lemma ImportIgnoresOrder(a: Material, b: Material, mid: seq<Entity>)
    requires a == b.(entities := a.entities)
    requires |mid| == |a.entities| && forall i :: 0 <= i < |mid| ==> SameEntity(a.entities[i], mid[i])
    requires multiset(mid) == multiset(b.entities)
    ensures Import(a) == Import(b) || (Import(a).Err? && Import(b).Err?)
  {
    hide ImportEntity, Traverse, SortBy, IsStableId, IsLogicalRef, IsInstant;
    assert |mid| == |multiset(mid)| == |b.entities|;
    TraverseMultiset(mid, b.entities, ImportEntity);
    TraversePointwise(a.entities, mid);
    if Traverse(mid, ImportEntity).Ok? {
      SortedByMultiset(Traverse(mid, ImportEntity).value, Traverse(b.entities, ImportEntity).value, EntityKey);
    }
  }

  lemma {:induction false} TraversePointwise(a: seq<Entity>, b: seq<Entity>)
    requires |a| == |b| && forall i :: 0 <= i < |a| ==> SameEntity(a[i], b[i])
    ensures Traverse(a, ImportEntity) == Traverse(b, ImportEntity)
            || (Traverse(a, ImportEntity).Err? && Traverse(b, ImportEntity).Err?)
  {
    hide ImportEntity, SameEntity;
    if a != [] {
      ImportEntityIgnoresOrder(a[0], b[0]);
      TraversePointwise(a[1..], b[1..]);
    }
  }

  /** The same source with its entities, and the columns inside them, in another order. */
  ghost predicate SameUpToOrder(r: Source, q: Source) {
    && r.sourceDigest == q.sourceDigest && r.material == q.material.(entities := r.material.entities)
    && exists mid: seq<Entity> ::
         && |mid| == |r.material.entities| && (forall i :: 0 <= i < |mid| ==> SameEntity(r.material.entities[i], mid[i]))
         && multiset(mid) == multiset(q.material.entities)
  }

  lemma ReorderedRechecksAlike(r: Source, q: Source, databaseId: string)
    requires SameUpToOrder(r, q)
    ensures RechecksAlike(r, q, databaseId)
  {
    hide Import, SameEntity;
    var mid :| |mid| == |r.material.entities|
      && (forall i :: 0 <= i < |mid| ==> SameEntity(r.material.entities[i], mid[i]))
      && multiset(mid) == multiset(q.material.entities);
    ImportIgnoresOrder(r.material, q.material, mid);
  }

  /** Both lists hold the same sources, up to order and repetition at every level. */
  ghost predicate Reordered(raws: seq<Source>, others: seq<Source>) {
    && (forall r :: r in raws ==> exists q :: q in others && SameUpToOrder(r, q))
    && (forall q :: q in others ==> exists r :: r in raws && SameUpToOrder(r, q))
  }

  /** Each source of `raws` stands in `others`, read forwards or backwards, up to order. */
  ghost predicate Matched(raws: seq<Source>, others: seq<Source>) {
    forall r :: r in raws ==> exists q :: q in others && (SameUpToOrder(r, q) || SameUpToOrder(q, r))
  }

  lemma MatchedCovers(raws: seq<Source>, others: seq<Source>, databaseId: string)
    requires Matched(raws, others)
    ensures Covered(raws, others, databaseId)
  {
    hide SameUpToOrder, RechecksAlike;
    forall r | r in raws
      ensures exists q :: q in others && RechecksAlike(r, q, databaseId)
    {
      var q :| q in others && (SameUpToOrder(r, q) || SameUpToOrder(q, r));
      EitherWayRechecksAlike(r, q, databaseId);
    }
  }

  lemma EitherWayRechecksAlike(r: Source, q: Source, databaseId: string)
    requires SameUpToOrder(r, q) || SameUpToOrder(q, r)
    ensures RechecksAlike(r, q, databaseId)
  {
    hide SameUpToOrder, KnowledgeSource;
    if SameUpToOrder(r, q) {
      ReorderedRechecksAlike(r, q, databaseId);
    } else {
      ReorderedRechecksAlike(q, r, databaseId);
    }
  }

  lemma ReorderedCovers(raws: seq<Source>, others: seq<Source>, databaseId: string)
    requires Reordered(raws, others)
    ensures Covered(raws, others, databaseId) && Covered(others, raws, databaseId)
  {
    hide SameUpToOrder, Covered;
    MatchedCovers(raws, others, databaseId);
    MatchedCovers(others, raws, databaseId);
  }
}
