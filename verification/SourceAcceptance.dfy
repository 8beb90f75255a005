/** Which schema sources are imported, and what an imported source says: the same
    entities and columns, sorted, with the type texts tidied. */
module SourceAcceptance {
  import opened Results
  import opened CodeUnits
  import opened Text
  import opened SchemaSources

  // ---- What a source may hold ----

  predicate NameChar(c: char) { 'a' <= c <= 'z' || '0' <= c <= '9' || c == '_' }

  predicate Name(s: string) { 1 <= |s| <= 127 && 'a' <= s[0] <= 'z' && forall c :: c in s ==> NameChar(c) }

  predicate StableId(s: string) {
    3 <= |s| <= 128 && 'a' <= s[0] <= 'z' && forall c :: c in s ==> NameChar(c) || c == '.' || c == '-'
  }

  predicate TypeChar(c: char) {
    NameChar(c) || 'A' <= c <= 'Z' || c == '(' || c == ')' || c == ',' || c == ' '
  }

  predicate TypeName(s: string) {
    1 <= |s| <= 127 && ('a' <= s[0] <= 'z' || 'A' <= s[0] <= 'Z') && forall c :: c in s ==> TypeChar(c)
  }

  ghost predicate ColumnFits(c: Column) { (c.name == "_id" || Name(c.name)) && TypeName(c.dataType) }

  ghost predicate EntityFits(e: Entity) {
    && Name(e.schema) && Name(e.name) && (e.type' == "table" || e.type' == "view")
    && 1 <= |e.columns| <= 1024 && (forall c :: c in e.columns ==> ColumnFits(c))
    && forall i, j :: 0 <= i < j < |e.columns| ==> e.columns[i].name != e.columns[j].name
  }

  /** The text occurs somewhere in `s`. */
  ghost predicate Occurs(s: string, part: string) { exists a, b :: s == a + part + b }

  ghost predicate Reference(s: string) {
    && 3 <= |s| <= 256 && 'a' <= s[0] <= 'z'
    && (forall c :: c in s ==> NameChar(c) || c in "./:-")
    && !Occurs(s, "://")
    && !Occurs(s, "password") && !Occurs(s, "credential") && !Occurs(s, "token") && !Occurs(s, "secret")
  }

  ghost predicate SourceFits(m: Material) {
    && m.kind in ["er", "ddl", "migration", "orm", "introspection"]
    && StableId(m.sourceId) && StableId(m.databaseId) && StableId(m.revision) && IsInstant(m.capturedAt)
    && Reference(m.logicalRef)
    && 1 <= |m.entities| <= 512 && (forall e :: e in m.entities ==> EntityFits(e))
    && forall i, j :: 0 <= i < j < |m.entities| ==>
         m.entities[i].schema + "." + m.entities[i].name != m.entities[j].schema + "." + m.entities[j].name
  }

  // ---- What an import keeps ----

  function Words(parts: seq<string>): seq<string> {
    if parts == [] then [] else (if parts[0] == "" then [] else [parts[0]]) + Words(parts[1..])
  }

  /** The words of a type text in lower case, one blank between them. */
  function Tidy(s: string): string { Lower(Join(Words(Split(s, ' ')), " ")) }

  ghost predicate ColumnKept(c: Column, k: Column) {
    && k.name == c.name && k.dataType == Tidy(c.dataType)
    && k.nullable == c.nullable && k.primaryKey == c.primaryKey && k.unique == c.unique
  }

  ghost predicate EntityKept(e: Entity, k: Entity) {
    && k.schema == e.schema && k.name == e.name && k.type' == e.type' && |k.columns| == |e.columns|
    && (forall c :: c in e.columns ==> exists d :: d in k.columns && ColumnKept(c, d))
    && (forall d :: d in k.columns ==> exists c :: c in e.columns && ColumnKept(c, d))
    && StrictlySorted(k.columns, ColumnName)
  }

  ghost predicate SourceKept(m: Material, k: Material) {
    && k == m.(entities := k.entities) && |k.entities| == |m.entities|
    && (forall e :: e in m.entities ==> exists d :: d in k.entities && EntityKept(e, d))
    && (forall d :: d in k.entities ==> exists e :: e in m.entities && EntityKept(e, d))
    && StrictlySorted(k.entities, EntityKey)
  }

  // ---- Texts ----

  lemma NameIff(s: string)
    ensures IsIdentifier(s) <==> Name(s)
  {
  }

  lemma StableIdIff(s: string)
    ensures IsStableId(s) <==> StableId(s)
  {
  }

  lemma TypeNameIff(s: string)
    ensures IsDataType(s) <==> TypeName(s)
  {
  }

  lemma {:induction false} ContainsIff(s: string, part: string)
    ensures Contains(s, part) <==> Occurs(s, part)
  {
    if part <= s {
      assert s == [] + part + s[|part|..];
    } else if s != [] {
      ContainsIff(s[1..], part);
      if Occurs(s[1..], part) {
        var a, b :| s[1..] == a + part + b;
        assert s == ([s[0]] + a) + part + b;
      }
    }
    if Occurs(s, part) {
      var a, b :| s == a + part + b;
      if a == [] {
        assert s[..|part|] == part;
      } else {
        assert s[1..] == a[1..] + part + b;
        ContainsIff(s[1..], part);
      }
    }
  }

  lemma LowerFixes(s: string)
    requires forall c :: c in s ==> !('A' <= c <= 'Z')
    ensures Lower(s) == s
  {
    assert forall i :: 0 <= i < |s| ==> s[i] in s;
  }

  lemma ReferenceIff(s: string)
    ensures IsLogicalRef(s) <==> Reference(s)
  {
    ContainsIff(s, "://");
    ContainsIff(s, "password");
    ContainsIff(s, "credential");
    ContainsIff(s, "token");
    ContainsIff(s, "secret");
    hide Contains, Occurs;
    if IsWord(s, 3, 256, "._:/-") || Reference(s) {
      LowerFixes(s);
    }
    assert SENSITIVE_WORDS[0] == "password" && SENSITIVE_WORDS[1] == "credential";
    assert SENSITIVE_WORDS[2] == "token" && SENSITIVE_WORDS[3] == "secret";
  }

  function WordsOf(s: string): seq<string> { Words(Split(s, ' ')) }

  function Spaced(s: string): string {
    if s == [] || s[0] != ' ' then Join(WordsOf(s), " ")
    else if WordsOf(s) == [] then ""
    else " " + Join(WordsOf(s), " ")
  }

  /** Squeezing blanks is splitting at them and joining the words again, but for one leading blank. */
  lemma {:induction false} SqueezeIsWords(s: string)
    ensures Squeeze(s) == Spaced(s)
  {
    hide Spaced;
    if s == [] {
      NoWords(s);
    } else {
      SqueezeIsWords(s[1..]);
      if s[0] == ' ' {
        AfterBlank(s);
      } else {
        AfterLetter(s);
      }
    }
  }

  lemma NoWords(s: string)
    requires s == []
    ensures Spaced(s) == ""
  {
    assert Split(s, ' ') == [""];
    assert Words([""]) == Words([""][1..]);
  }

  lemma AfterBlank(s: string)
    requires s != [] && s[0] == ' '
    ensures Spaced(s) == (if |s| == 1 || s[1] == ' ' then "" else " ") + Spaced(s[1..])
  {
    hide Join;
    var rest := Split(s[1..], ' ');
    assert Split(s, ' ') == [""] + rest && ([""] + rest)[1..] == rest;
    assert WordsOf(s) == WordsOf(s[1..]);
    if |s| > 1 && s[1] != ' ' {
      FirstPart(s[1..]);
    } else if |s| == 1 {
      NoWords(s[1..]);
      assert WordsOf(s[1..]) == [] by {
        assert rest == [""] && Words(rest) == Words(rest[1..]);
      }
    }
  }

  lemma LetterWords(s: string)
    requires s != [] && s[0] != ' '
    ensures var rest := Split(s[1..], ' '); WordsOf(s) == [[s[0]] + rest[0]] + Words(rest[1..])
  {
    var rest := Split(s[1..], ' ');
    var parts := [[s[0]] + rest[0]] + rest[1..];
    assert parts[1..] == rest[1..];
  }

  lemma AfterLetter(s: string)
    requires s != [] && s[0] != ' '
    ensures Spaced(s) == [s[0]] + Spaced(s[1..])
  {
    hide Join, Split, Words;
    var rest := Split(s[1..], ' ');
    LetterWords(s);
    JoinFirst([s[0]], rest[0], Words(rest[1..]));
    if |s| > 1 && s[1] != ' ' {
      FirstPart(s[1..]);
    } else {
      FirstBlank(s[1..]);
      if |s| == 1 {
        NoWords(s[1..]);
        assert Words(rest[1..]) == [] by {
          OneEmptyPart(s[1..]);
        }
      }
    }
  }

  lemma OneEmptyPart(s: string)
    requires s == []
    ensures Words(Split(s, ' ')[1..]) == []
  {
  }

  lemma FirstPart(s: string)
    requires s != [] && s[0] != ' '
    ensures Split(s, ' ')[0] != "" && Words(Split(s, ' ')) == [Split(s, ' ')[0]] + Words(Split(s, ' ')[1..])
  {
  }

  lemma FirstBlank(s: string)
    requires s == [] || s[0] == ' '
    ensures Split(s, ' ')[0] == "" && Words(Split(s, ' ')) == Words(Split(s, ' ')[1..])
  {
  }

  lemma JoinFirst(c: string, w: string, words: seq<string>)
    ensures Join([c + w] + words, " ") == c + w + (if words == [] then "" else " " + Join(words, " "))
    ensures w != "" ==> Join([w] + words, " ") == w + (if words == [] then "" else " " + Join(words, " "))
  {
    assert ([c + w] + words)[1..] == words && ([w] + words)[1..] == words;
  }

  lemma TypeTextIsTidy(s: string)
    requires TypeName(s)
    ensures TypeText(s) == Tidy(s)
  {
    hide Split, Words, Join, Squeeze;
    SqueezeIsWords(s);
  }

  // ---- Entities and sources ----

  lemma ColumnIff(c: Column)
    ensures ImportColumn(c).Ok? <==> ColumnFits(c)
    ensures ImportColumn(c).Ok? ==> ColumnKept(c, ImportColumn(c).value)
  {
    hide IsIdentifier, Name, IsDataType, TypeName, TypeText, Tidy;
    NameIff(c.name);
    TypeNameIff(c.dataType);
    if TypeName(c.dataType) {
      TypeTextIsTidy(c.dataType);
    }
  }

  /** Importing a list item by item and sorting it keeps every item. */
  lemma SortedKeeps<T>(items: seq<T>, imported: T -> Result<T>, key: T -> string)
    requires Traverse(items, imported).Ok? && DistinctKeys(Traverse(items, imported).value, key)
    ensures var kept := SortBy(Traverse(items, imported).value, key);
            && |kept| == |items| && StrictlySorted(kept, key)
            && (forall x :: x in items ==> imported(x).Ok? && imported(x).value in kept)
            && (forall k :: k in kept ==> exists x :: x in items && imported(x) == Ok(k))
  {
    hide SortBy, Less, Traverse;
    var out: seq<T> := Traverse(items, imported).value;
    var kept: seq<T> := SortBy(out, key);
    TraverseAt(items, imported);
    SortMembers(out, key);
    SortMultiset(out, key);
    SortStrict(out, key);
    forall x | x in items
      ensures imported(x).Ok? && imported(x).value in kept
    {
      var i :| 0 <= i < |items| && items[i] == x;
      assert out[i] in out;
    }
    forall k: T | k in kept
      ensures exists x :: x in items && imported(x) == Ok(k)
    {
      assert k in multiset(kept) && k in multiset(out);
      var i :| 0 <= i < |out| && out[i] == k;
      assert items[i] in items;
    }
  }

  /** A list imports exactly when every item does; the imports have the same keys as the items. */
  lemma TraverseKeys<T>(items: seq<T>, imported: T -> Result<T>, key: T -> string)
    requires forall x :: x in items && imported(x).Ok? ==> key(imported(x).value) == key(x)
    ensures Traverse(items, imported).Ok? <==> forall x :: x in items ==> imported(x).Ok?
    ensures Traverse(items, imported).Ok? ==>
              var out := Traverse(items, imported).value;
              (|KeySet(out, key)| == |out| <==> DistinctKeys(items, key))
              && (|KeySet(out, key)| == |out| <==> DistinctKeys(out, key))
  {
    hide Traverse;
    TraverseAt(items, imported);
    if Traverse(items, imported).Ok? {
      var out := Traverse(items, imported).value;
      DistinctIffSetSize(out, key);
      forall i | 0 <= i < |items|
        ensures key(out[i]) == key(items[i])
      {
        assert items[i] in items;
      }
    }
    forall x | x in items && Traverse(items, imported).Ok?
      ensures imported(x).Ok?
    {
      var i :| 0 <= i < |items| && items[i] == x;
    }
  }

  lemma EntityIff(e: Entity)
    ensures ImportEntity(e).Ok? <==> EntityFits(e)
    ensures ImportEntity(e).Ok? ==> EntityKept(e, ImportEntity(e).value)
  {
    hide IsIdentifier, Name, ImportColumn, ColumnFits, ColumnKept, Traverse, SortBy, StrictlySorted;
    NameIff(e.schema);
    NameIff(e.name);
    forall c
      ensures ImportColumn(c).Ok? <==> ColumnFits(c)
      ensures ImportColumn(c).Ok? ==> ColumnKept(c, ImportColumn(c).value) && ImportColumn(c).value.name == c.name
    {
      ColumnIff(c);
      if ImportColumn(c).Ok? {
        ImportedColumnName(c);
      }
    }
    TraverseKeys(e.columns, ImportColumn, ColumnName);
    if Traverse(e.columns, ImportColumn).Ok? && DistinctKeys(Traverse(e.columns, ImportColumn).value, ColumnName) {
      SortedKeeps(e.columns, ImportColumn, ColumnName);
    }
  }

  lemma ImportedColumnName(c: Column)
    requires ImportColumn(c).Ok?
    ensures ImportColumn(c).value.name == c.name
  {
  }

  lemma ImportedEntityKey(e: Entity)
    requires ImportEntity(e).Ok?
    ensures EntityKey(ImportEntity(e).value) == EntityKey(e)
  {
  }

  /** A source is imported exactly when it fits, and the import says the same. */
  lemma ImportIff(m: Material)
    ensures Import(m).Ok? <==> SourceFits(m)
    ensures Import(m).Ok? ==> SourceKept(m, Import(m).value.material)
    ensures Import(m).Ok? ==> Import(m).value.sourceDigest == Sha256(Import(m).value.material)
  {
    hide IsStableId, StableId, IsLogicalRef, Reference, ImportEntity, EntityFits, EntityKept, Traverse, SortBy,
      StrictlySorted, IsInstant;
    StableIdIff(m.sourceId);
    StableIdIff(m.databaseId);
    StableIdIff(m.revision);
    ReferenceIff(m.logicalRef);
    forall e
      ensures ImportEntity(e).Ok? <==> EntityFits(e)
      ensures ImportEntity(e).Ok? ==>
                EntityKept(e, ImportEntity(e).value) && EntityKey(ImportEntity(e).value) == EntityKey(e)
    {
      EntityIff(e);
      if ImportEntity(e).Ok? {
        ImportedEntityKey(e);
      }
    }
    TraverseKeys(m.entities, ImportEntity, EntityKey);
    if Traverse(m.entities, ImportEntity).Ok? && DistinctKeys(Traverse(m.entities, ImportEntity).value, EntityKey) {
      SortedKeeps(m.entities, ImportEntity, EntityKey);
    }
  }

  /** A source offered to a package is taken exactly when it fits, is of this database and carries the
      digest of what importing it gives; and then that is what is taken. */
  lemma SourceIsTakenIff(raw: Source, databaseId: string)
    ensures KnowledgeSource(raw, databaseId).Ok? <==>
              && SourceFits(raw.material) && raw.material.databaseId == databaseId
              && SourceKept(raw.material, raw.sourceDigest.material)
              && Import(raw.material) == Ok(Source(raw.sourceDigest.material, raw.sourceDigest))
    ensures KnowledgeSource(raw, databaseId).Ok? ==>
              SourceKept(raw.material, KnowledgeSource(raw, databaseId).value.material)
  {
    hide Import, SourceFits, SourceKept;
    ImportIff(raw.material);
    if Import(raw.material).Ok? {
      ImportedKind(raw.material);
    }
  }

  lemma ImportedKind(m: Material)
    requires Import(m).Ok?
    ensures m.kind in SOURCE_KINDS && Import(m).value.material.databaseId == m.databaseId
  {
    hide ImportEntity, Traverse, SortBy, IsStableId, IsLogicalRef, IsInstant;
  }
}
