/** The PostgreSQL read parser and worker, over the tokens its patterns find in
    the statement text, and their agreement with the planner. */
module PostgreSqlProbe {
  import opened Results
  import opened CodeUnits
  import opened Text
  import opened ProbeOperation

  datatype Relation = Relation(first: string, second: Option<string>)

  /** What the patterns find in one statement: the first broken statement rule, the names before
      `AS (`, the relations after FROM or JOIN, the names before `(`, and the numbers after `$`. */
  datatype Scan = Scan(
    ruleBroken: Option<string>,
    cteNames: seq<string>,
    relations: seq<Relation>,
    calls: seq<string>,
    placeholders: seq<nat>)

  datatype Options = Options(kind: string, protectedRequestRef: string, parameterClassifications: seq<string>)

  const SAFE_FUNCTIONS: seq<string> :=
    ["avg", "coalesce", "count", "date_trunc", "length", "lower", "max", "min", "sum", "upper"]
  const FUNCTION_SYNTAX: seq<string> := ["as", "case", "exists", "explain", "in", "over"]
  const SAFE_CATALOGS: seq<string> := [
    "pg_catalog.pg_attribute", "pg_catalog.pg_class", "pg_catalog.pg_constraint", "pg_catalog.pg_index",
    "pg_catalog.pg_namespace", "pg_catalog.pg_tables", "information_schema.columns",
    "information_schema.table_constraints", "information_schema.tables"]

  predicate IsSqlName(s: string) {
    1 <= |s| <= 63 && IsLower(s[0]) && Every(s, c => IsLower(c) || IsDigit(c) || c == '_')
  }

  function LowerNames(names: seq<string>): set<string> {
    set n | n in names :: Lower(n)
  }

  method CommonTableExpressions(scan: Scan) returns (names: set<string>)
    ensures names == LowerNames(scan.cteNames)
  {
    names := {};
    for i := 0 to |scan.cteNames|
      invariant names == LowerNames(scan.cteNames[..i])
    {
      names := names + {Lower(scan.cteNames[i])};
      assert scan.cteNames[..i + 1] == scan.cteNames[..i] + [scan.cteNames[i]];
    }
    assert scan.cteNames[..|scan.cteNames|] == scan.cteNames;
  }

  /** The object a relation names, or nothing for a common table expression. */
  function ObjectOf(relation: Relation, ctes: set<string>, kind: string): Result<Option<ObjectRef>> {
    var first := Lower(relation.first);
    if relation.second.None? then
      if first in ctes then Ok(None) else Err("VES_POSTGRES_OBJECT_INVALID")
    else
      var second := Lower(relation.second.value);
      if !IsSqlName(first) || !IsSqlName(second) then Err("VES_POSTGRES_OBJECT_INVALID")
      else
        var catalog := first == "pg_catalog" || first == "information_schema";
        if catalog && (kind != "introspect" || first + "." + second !in SAFE_CATALOGS) then
          Err("VES_POSTGRES_CATALOG_DENIED")
        else Ok(Some(ObjectRef(first, second, if catalog then "catalog" else "table")))
  }

  function NamePosition(kept: seq<ObjectRef>, name: string): (at: nat)
    ensures at <= |kept|
    ensures at < |kept| ==> ObjectName(kept[at]) == name
    ensures forall i :: 0 <= i < at ==> ObjectName(kept[i]) != name
  {
    if kept == [] || ObjectName(kept[0]) == name then 0 else 1 + NamePosition(kept[1..], name)
  }

  function Put(kept: seq<ObjectRef>, o: ObjectRef): seq<ObjectRef> {
    var at := NamePosition(kept, ObjectName(o));
    if at < |kept| then kept[at := o] else kept + [o]
  }

  /** The values of the object map after the given relations, in insertion order. */
  function ObjectsOf(relations: seq<Relation>, ctes: set<string>, kind: string): Result<seq<ObjectRef>> {
    if relations == [] then Ok([])
    else
      match ObjectsOf(relations[..|relations| - 1], ctes, kind)
      case Err(code) => Err(code)
      case Ok(kept) =>
        match ObjectOf(relations[|relations| - 1], ctes, kind)
        case Err(code) => Err(code)
        case Ok(None) => Ok(kept)
        case Ok(Some(o)) => Ok(Put(kept, o))
  }

  lemma {:induction false} ObjectsFailEarly(relations: seq<Relation>, ctes: set<string>, kind: string, i: nat)
    requires i <= |relations| && ObjectsOf(relations[..i], ctes, kind).Err?
    ensures ObjectsOf(relations, ctes, kind) == Err(ObjectsOf(relations[..i], ctes, kind).code)
    decreases |relations|
  {
    hide ObjectOf, Put;
    if i < |relations| {
      var init := relations[..|relations| - 1];
      assert init[..i] == relations[..i];
      ObjectsFailEarly(init, ctes, kind, i);
    } else {
      assert relations[..i] == relations;
    }
  }

  method PostgreSqlObjects(scan: Scan, ctes: set<string>, kind: string) returns (r: Result<seq<ObjectRef>>)
    ensures r == match ObjectsOf(scan.relations, ctes, kind)
                 case Err(code) => Err(code)
                 case Ok(objects) => if objects == [] then Err("VES_POSTGRES_OBJECT_INVALID") else Ok(objects)
  {
    hide ObjectOf;
    var objects: seq<ObjectRef> := [];
    for i := 0 to |scan.relations|
      invariant ObjectsOf(scan.relations[..i], ctes, kind) == Ok(objects)
    {
      assert scan.relations[..i + 1][..i] == scan.relations[..i];
      match ObjectOf(scan.relations[i], ctes, kind) {
        case Err(code) =>
          ObjectsFailEarly(scan.relations, ctes, kind, i + 1);
          return Err(code);
        case Ok(None) =>
        case Ok(Some(o)) =>
          var at := NamePosition(objects, ObjectName(o));
          objects := if at < |objects| then objects[at := o] else objects + [o];
      }
    }
    assert scan.relations[..|scan.relations|] == scan.relations;
    r := if objects == [] then Err("VES_POSTGRES_OBJECT_INVALID") else Ok(objects);
  }

  /** The calls that count as functions: not an expression name, not SQL syntax. */
  function FunctionsOf(calls: seq<string>, ctes: set<string>): seq<string> {
    if calls == [] then []
    else
      var kept, name := FunctionsOf(calls[..|calls| - 1], ctes), Lower(calls[|calls| - 1]);
      if name in ctes || name in FUNCTION_SYNTAX || name in kept then kept else kept + [name]
  }

  lemma {:induction false} FunctionsOfPrefix(calls: seq<string>, ctes: set<string>, i: nat)
    requires i <= |calls|
    ensures forall f :: f in FunctionsOf(calls[..i], ctes) ==> f in FunctionsOf(calls, ctes)
    decreases |calls|
  {
    if i < |calls| {
      var init := calls[..|calls| - 1];
      assert init[..i] == calls[..i];
      FunctionsOfPrefix(init, ctes, i);
    } else {
      assert calls[..i] == calls;
    }
  }

  method PostgreSqlFunctions(scan: Scan, ctes: set<string>) returns (r: Result<seq<string>>)
    ensures r == if forall f :: f in FunctionsOf(scan.calls, ctes) ==> f in SAFE_FUNCTIONS
                 then Ok(FunctionsOf(scan.calls, ctes)) else Err("VES_POSTGRES_FUNCTION_DENIED")
  {
    var functions: seq<string> := [];
    for i := 0 to |scan.calls|
      invariant functions == FunctionsOf(scan.calls[..i], ctes)
      invariant forall f :: f in functions ==> f in SAFE_FUNCTIONS
    {
      var name := Lower(scan.calls[i]);
      assert scan.calls[..i + 1][..i] == scan.calls[..i];
      if name in ctes || name in FUNCTION_SYNTAX {
        continue;
      }
      if name !in SAFE_FUNCTIONS {
        assert name in FunctionsOf(scan.calls[..i + 1], ctes);
        FunctionsOfPrefix(scan.calls, ctes, i + 1);
        return Err("VES_POSTGRES_FUNCTION_DENIED");
      }
      functions := if name in functions then functions else functions + [name];
    }
    assert scan.calls[..|scan.calls|] == scan.calls;
    r := Ok(functions);
  }

  /** The set 1..n. */
  function UpTo(n: nat): (s: set<nat>)
    ensures |s| == n
    ensures forall x :: x in s <==> 1 <= x <= n
  {
    if n == 0 then {} else UpTo(n - 1) + {n}
  }

  method Maximum(xs: seq<nat>) returns (m: nat)
    ensures xs == [] ==> m == 0
    ensures xs != [] ==> m in xs
    ensures forall x :: x in xs ==> x <= m
  {
    m := 0;
    for i := 0 to |xs|
      invariant i == 0 ==> m == 0
      invariant i > 0 ==> m in xs[..i]
      invariant forall x :: x in xs[..i] ==> x <= m
    {
      assert xs[..i + 1] == xs[..i] + [xs[i]];
      m := if i == 0 || m < xs[i] then xs[i] else m;
    }
    assert xs[..|xs|] == xs;
  }

  function NumbersOf(placeholders: seq<nat>): set<nat> {
    set p | p in placeholders
  }

  /** Comparing the largest placeholder and the number of distinct ones with the number of
      classifications accepts exactly when the placeholders are 1..n, in any order and repeated at will. */
  method PlaceholdersMatch(placeholders: seq<nat>, classificationCount: nat) returns (ok: bool)
    ensures ok <==> NumbersOf(placeholders) == UpTo(classificationCount) && classificationCount <= 64
  {
    var maximum := Maximum(placeholders);
    var distinct := NumbersOf(placeholders);
    ok := maximum == classificationCount && |distinct| == maximum
          && forall p :: p in placeholders ==> 1 <= p <= 64;
    if ok {
      SubsetSize(distinct, UpTo(maximum));
    }
    if distinct == UpTo(classificationCount) {
      assert forall p :: p in placeholders ==> p in distinct;
      if classificationCount > 0 {
        assert classificationCount in distinct;
      }
      assert maximum == classificationCount;
    }
  }

  /** The parser as a function of what the patterns find. */
  function Parse(scan: Scan, options: Options): Result<Operation> {
    if scan.ruleBroken.Some? then Err(scan.ruleBroken.value)
    else if !IsProtectedRef(options.protectedRequestRef) then Err("VES_POSTGRES_REQUEST_INVALID")
    else if |options.parameterClassifications| > 64
      || exists c :: c in options.parameterClassifications && c !in CLASSIFICATIONS
    then Err("VES_POSTGRES_PARAMETERS_INVALID")
    else
      var ctes := LowerNames(scan.cteNames);
      match ObjectsOf(scan.relations, ctes, options.kind)
      case Err(code) => Err(code)
      case Ok(objects) =>
        if objects == [] then Err("VES_POSTGRES_OBJECT_INVALID")
        else if exists f :: f in FunctionsOf(scan.calls, ctes) && f !in SAFE_FUNCTIONS then
          Err("VES_POSTGRES_FUNCTION_DENIED")
        else if NumbersOf(scan.placeholders) != UpTo(|options.parameterClassifications|) then
          Err("VES_POSTGRES_PARAMETERS_INVALID")
        else
          Ok(Operation(
            options.kind, 1, options.protectedRequestRef, SortBy(objects, ObjectName),
            SortBy(FunctionsOf(scan.calls, ctes), Whole), SortBy(options.parameterClassifications, Whole)))
  }

  method ParseReadOperation(scan: Scan, options: Options) returns (r: Result<Operation>)
    ensures r == Parse(scan, options)
  {
    hide SortBy, IsProtectedRef, FunctionsOf, ObjectsOf, LowerNames, UpTo, NumbersOf;
    if scan.ruleBroken.Some? {
      return Err(scan.ruleBroken.value);
    }
    if !IsProtectedRef(options.protectedRequestRef) {
      return Err("VES_POSTGRES_REQUEST_INVALID");
    }
    if |options.parameterClassifications| > 64
      || exists c :: c in options.parameterClassifications && c !in CLASSIFICATIONS {
      return Err("VES_POSTGRES_PARAMETERS_INVALID");
    }
    var ctes := CommonTableExpressions(scan);
    var objects := PostgreSqlObjects(scan, ctes, options.kind);
    if objects.Err? {
      return Err(objects.code);
    }
    var functions := PostgreSqlFunctions(scan, ctes);
    if functions.Err? {
      return Err(functions.code);
    }
    var match' := PlaceholdersMatch(scan.placeholders, |options.parameterClassifications|);
    if !match' {
      return Err("VES_POSTGRES_PARAMETERS_INVALID");
    }
    r := Ok(Operation(
      options.kind, 1, options.protectedRequestRef, SortBy(objects.value, ObjectName),
      SortBy(functions.value, Whole), SortBy(options.parameterClassifications, Whole)));
  }

  /** The worker's checks before it streams a protected request under a plan. */
  method Execute(planned: Operation, scan: Scan, parameterCount: nat) returns (r: Result<Operation>)
    ensures r == WorkerAnswer(planned, scan, parameterCount)
  {
    hide Parse;
    var operation := ParseReadOperation(scan, OptionsOf(planned));
    if operation.Err? {
      return operation;
    }
    if operation.value != planned {
      return Err("VES_POSTGRES_PLAN_MISMATCH");
    }
    var maximum := Maximum(scan.placeholders);
    MaximumIs(scan.placeholders, maximum);
    if parameterCount != maximum {
      return Err("VES_POSTGRES_PARAMETERS_INVALID");
    }
    r := operation;
  }

  function OptionsOf(planned: Operation): Options {
    Options(planned.kind, planned.protectedRequestRef, planned.parameterClassifications)
  }

  function Largest(xs: seq<nat>): nat {
    if xs == [] then 0 else var rest := Largest(xs[1..]); if xs[0] > rest then xs[0] else rest
  }

  lemma {:induction false} MaximumIs(xs: seq<nat>, m: nat)
    requires xs == [] ==> m == 0
    requires xs != [] ==> m in xs
    requires forall x :: x in xs ==> x <= m
    ensures Largest(xs) == m
  {
    LargestHolds(xs);
  }

  lemma {:induction false} LargestHolds(xs: seq<nat>)
    ensures xs != [] ==> Largest(xs) in xs
    ensures forall x :: x in xs ==> x <= Largest(xs)
  {
    if xs != [] {
      LargestHolds(xs[1..]);
      assert xs == [xs[0]] + xs[1..];
    }
  }

  function WorkerAnswer(planned: Operation, scan: Scan, parameterCount: nat): Result<Operation> {
    match Parse(scan, OptionsOf(planned))
    case Err(code) => Err(code)
    case Ok(operation) =>
      if operation != planned then Err("VES_POSTGRES_PLAN_MISMATCH")
      else if parameterCount != Largest(scan.placeholders) then Err("VES_POSTGRES_PARAMETERS_INVALID")
      else Ok(operation)
  }

  // ---- Planner and worker agree ----

  predicate IsParsedObject(o: ObjectRef) {
    IsSqlName(o.schema) && IsSqlName(o.name) && o.type' in ["table", "catalog"]
  }

  lemma {:induction false} ObjectsHold(relations: seq<Relation>, ctes: set<string>, kind: string)
    requires ObjectsOf(relations, ctes, kind).Ok?
    ensures DistinctKeys(ObjectsOf(relations, ctes, kind).value, ObjectName)
    ensures forall o :: o in ObjectsOf(relations, ctes, kind).value ==> IsParsedObject(o)
    decreases |relations|
  {
    hide IsSqlName, ObjectName;
    if relations != [] {
      ObjectsHold(relations[..|relations| - 1], ctes, kind);
    }
  }

  lemma {:induction false} FunctionsAreDistinct(calls: seq<string>, ctes: set<string>)
    ensures DistinctKeys(FunctionsOf(calls, ctes), Whole)
    ensures forall f :: f in FunctionsOf(calls, ctes) ==> Lower(f) == f
    decreases |calls|
  {
    if calls != [] {
      FunctionsAreDistinct(calls[..|calls| - 1], ctes);
    }
  }

  lemma ParsedIsNormal(scan: Scan, options: Options)
    requires Parse(scan, options).Ok?
    ensures IsNormal(Parse(scan, options).value)
    ensures forall o :: o in Parse(scan, options).value.objects ==> IsParsedObject(o)
    ensures forall f :: f in Parse(scan, options).value.functions ==> f in SAFE_FUNCTIONS
  {
    hide Less, SortBy, ObjectsOf, FunctionsOf, IsParsedObject, IsProtectedRef, UpTo, NumbersOf, ObjectName, TypedName;
    var ctes := LowerNames(scan.cteNames);
    var objects, functions := ObjectsOf(scan.relations, ctes, options.kind).value, FunctionsOf(scan.calls, ctes);
    ObjectsHold(scan.relations, ctes, options.kind);
    SortStrict(objects, ObjectName);
    SortMembers(objects, ObjectName);
    forall o | o in SortBy(objects, ObjectName)
      ensures AboveDot(o.schema) && AboveDot(o.name)
    {
      NamesAreAboveDot(o);
    }
    TwoKeysOneOrder(SortBy(objects, ObjectName));
    FunctionsAreDistinct(scan.calls, ctes);
    SortStrict(functions, Whole);
    SortMembers(functions, Whole);
    var sorted := SortBy(functions, Whole);
    assert LowerAll(sorted) == sorted by {
      forall i | 0 <= i < |sorted|
        ensures Lower(sorted[i]) == sorted[i]
      {
        assert sorted[i] in sorted;
      }
    }
    SortSorted(options.parameterClassifications, Whole);
  }

  lemma NamesAreAboveDot(o: ObjectRef)
    requires IsParsedObject(o)
    ensures AboveDot(o.schema) && AboveDot(o.name)
  {
  }

  /** The planner leaves a parsed operation exactly as it is, whenever it accepts it. */
  lemma PlannerKeepsParsedOperations(scan: Scan, options: Options)
    requires Parse(scan, options).Ok?
    ensures Normal(Parse(scan, options).value) == Parse(scan, options).value
  {
    hide Parse;
    ParsedIsNormal(scan, options);
    NormalIsFixed(Parse(scan, options).value);
  }

  /** And it accepts it exactly when the kind is a read kind, there are at most 128 objects, and every
      name is also an identifier to the planner, which wants two characters and a last letter or digit. */
  lemma PlannerAcceptsIff(scan: Scan, options: Options)
    requires Parse(scan, options).Ok?
    ensures var op := Parse(scan, options).value;
            OperationError(op).None? <==>
              && options.kind in ["select", "introspect"] && |op.objects| <= 128
              && forall o :: o in op.objects ==> IsIdentifier(o.schema) && IsIdentifier(o.name)
  {
    hide IsParsedObject, IsIdentifier, IsProtectedRef, ObjectsOf, FunctionsOf, SortBy, UpTo, NumbersOf;
    var op := Parse(scan, options).value;
    ParsedIsNormal(scan, options);
    forall o | o in op.objects
      ensures o.type' in ["table", "view", "catalog"]
    {
      ParsedType(o);
    }
    var objects := ObjectsOf(scan.relations, LowerNames(scan.cteNames), options.kind).value;
    SortMembers(objects, ObjectName);
    SortMembers(options.parameterClassifications, Whole);
    FewFunctions(op);
    forall f | f in op.functions
      ensures IsIdentifier(Lower(f))
    {
      SafeFunctionsAreIdentifiers(f);
    }
  }

  /** A statement over one table and nothing else. */
  function OneTable(schema: string, name: string): Scan { Scan(None, [], [Relation(schema, Some(name))], [], []) }

  predicate IsCatalog(schema: string) { schema == "pg_catalog" || schema == "information_schema" }

  lemma LowerSqlName(s: string)
    requires IsSqlName(s)
    ensures Lower(s) == s
  {
    assert forall i :: 0 <= i < |s| ==> s[i] in s;
  }

  lemma OneTableObjects(schema: string, name: string, kind: string)
    requires IsSqlName(schema) && IsSqlName(name) && !IsCatalog(schema)
    ensures ObjectsOf([Relation(schema, Some(name))], {}, kind) == Ok([ObjectRef(schema, name, "table")])
  {
    LowerSqlName(schema);
    LowerSqlName(name);
    hide IsSqlName, Lower, ObjectName;
    var relations := [Relation(schema, Some(name))];
    assert relations[..|relations| - 1] == [];
    assert ObjectOf(relations[0], {}, kind) == Ok(Some(ObjectRef(schema, name, "table")));
    assert ObjectsOf([], {}, kind) == Ok([]);
    assert Put([], ObjectRef(schema, name, "table")) == [ObjectRef(schema, name, "table")];
  }

  /** Every statement over one table parses, and the planner refuses what the parser read exactly when
      schema or table is no identifier to it. */
  lemma OneTableIsPlannedIff(schema: string, name: string, ref: string)
    requires IsSqlName(schema) && IsSqlName(name) && !IsCatalog(schema) && IsProtectedRef(ref)
    ensures var r := Parse(OneTable(schema, name), Options("select", ref, []));
            && r.Ok? && r.value.objects == [ObjectRef(schema, name, "table")]
            && (OperationError(r.value).None? <==> IsIdentifier(schema) && IsIdentifier(name))
  {
    var scan, options := OneTable(schema, name), Options("select", ref, []);
    assert LowerNames(scan.cteNames) == {};
    assert NumbersOf(scan.placeholders) == UpTo(0);
    OneTableObjects(schema, name, "select");
    hide IsSqlName, ObjectsOf, IsProtectedRef, IsIdentifier, OperationError;
    assert SortBy([ObjectRef(schema, name, "table")], ObjectName) == [ObjectRef(schema, name, "table")];
    PlannerAcceptsIff(scan, options);
  }

  /** Names the parser reads and the planner refuses: one letter, and a trailing underscore. */
  lemma ReadableNamesCanBeRefused(ref: string)
    requires IsProtectedRef(ref)
    ensures var letter := Parse(OneTable("s", "users"), Options("select", ref, []));
            letter.Ok? && OperationError(letter.value).Some?
    ensures var trailing := Parse(OneTable("public", "users_"), Options("select", ref, []));
            trailing.Ok? && OperationError(trailing.value).Some?
  {
    hide IsProtectedRef, Parse, OperationError;
    OneTableIsPlannedIff("s", "users", ref);
    OneTableIsPlannedIff("public", "users_", ref);
  }

  lemma ParsedType(o: ObjectRef)
    requires IsParsedObject(o)
    ensures o.type' in ["table", "view", "catalog"]
  {
  }

  lemma FewFunctions(op: Operation)
    requires IsNormal(op) && forall f :: f in op.functions ==> f in SAFE_FUNCTIONS
    ensures |op.functions| <= |SAFE_FUNCTIONS|
  {
    hide Less;
    StrictIsDistinct(op.functions, Whole);
    DistinctIffSetSize(op.functions, Whole);
    DistinctIffSetSize(SAFE_FUNCTIONS, Whole);
    SubsetSize(KeySet(op.functions, Whole), KeySet(SAFE_FUNCTIONS, Whole));
  }

  lemma SafeFunctionsAreIdentifiers(f: string)
    requires f in SAFE_FUNCTIONS
    ensures IsIdentifier(Lower(f))
  {
    var i :| 0 <= i < |SAFE_FUNCTIONS| && SAFE_FUNCTIONS[i] == f;
    assert forall j :: 0 <= j < |f| ==> IsLower(f[j]) || f[j] == '_';
    assert Lower(f) == f;
  }

  /** Reading the statement again under the plan gives the plan's operation, so a planned statement is
      never refused as a mismatch: it runs exactly when it brings one parameter per classification. */
  lemma PlannedStatementNeverMismatches(scan: Scan, options: Options, parameterCount: nat)
    requires Parse(scan, options).Ok? && OperationError(Parse(scan, options).value).None?
    ensures var planned := Normal(Parse(scan, options).value);
            WorkerAnswer(planned, scan, parameterCount) ==
              if parameterCount == |options.parameterClassifications| then Ok(planned)
              else Err("VES_POSTGRES_PARAMETERS_INVALID")
  {
    hide SortBy, ObjectsOf, FunctionsOf, IsProtectedRef, Less;
    PlannerKeepsParsedOperations(scan, options);
    var classes := options.parameterClassifications;
    SortSorted(classes, Whole);
    SortSortedFixed(SortBy(classes, Whole), Whole);
    SortMembers(classes, Whole);
    LargestHolds(scan.placeholders);
    if classes != [] {
      assert |classes| in NumbersOf(scan.placeholders);
    }
    assert Largest(scan.placeholders) in NumbersOf(scan.placeholders) || scan.placeholders == [];
  }
}
