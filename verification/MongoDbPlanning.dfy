/** From a MongoDB command to an approved plan and back: the planner keeps what
    the parser read, so the worker never refuses a planned command as a mismatch. */
module MongoDbPlanning {
  import opened Results
  import opened CodeUnits
  import opened Text
  import opened ProbeOperation
  import opened MongoDbCommand
  import opened MongoDbProbe
  import opened MongoDbBinding

  /** Every name an accepted command can contribute to its operation. */
  const FUNCTION_NAMES: seq<string> := [
    "and", "or", "exists", "eq", "ne", "gt", "gte", "lt", "lte", "in", "match", "project", "sort", "limit", "explain"]

  predicate Approved(names: set<string>) { forall n :: n in names ==> n in FUNCTION_NAMES }

  lemma ApprovedNode(v: Json)
    requires forall i :: 0 <= i < |Children(v)| ==> Approved(NamesAt(v, i))
    ensures Approved(OperatorNames(v))
  {
    hide NamesAt, Children;
  }

  lemma ConditionNames(operator: string, operand: Json)
    requires ConditionError(operator, operand) == None
    ensures Approved(OperatorName(operator) + OperatorNames(operand))
  {
    hide OperatorNames;
    if operator == "$exists" {
      ScalarHoldsNothing(operand);
      assert operator[1..] == "exists";
    } else {
      TokenHoldsItsNumber(operand);
      ComparisonName(operator);
    }
  }

  lemma ComparisonName(operator: string)
    requires operator in COMPARISON_OPERATORS
    ensures operator[1..] in FUNCTION_NAMES
  {
    assert "$eq"[1..] == "eq" && "$ne"[1..] == "ne" && "$gt"[1..] == "gt" && "$gte"[1..] == "gte";
    assert "$lt"[1..] == "lt" && "$lte"[1..] == "lte" && "$in"[1..] == "in";
  }

  lemma {:induction false} ConditionsNames(condition: Json, i: nat)
    requires condition.Obj? && ConditionsError(condition, i) == None
    ensures forall j :: i <= j < |condition.fields| ==> Approved(NamesAt(condition, j))
    decreases |condition.fields| - i
  {
    hide ConditionError, OperatorName, OperatorNames, Approved;
    if i < |condition.fields| {
      ConditionNames(condition.fields[i].key, condition.fields[i].value);
      ConditionsNames(condition, i + 1);
    }
  }

  lemma FieldNames(field: string, condition: Json)
    requires FieldError(field, condition) == None
    ensures Approved(OperatorName(field) + OperatorNames(condition))
  {
    hide Approved, OperatorNames, OperatorName, NamesAt, IsField, ConditionsError;
    FieldsAreNotOperators(field);
    ConditionsNames(condition, 0);
    ApprovedNode(condition);
    assert OperatorName(field) + OperatorNames(condition) == OperatorNames(condition);
  }

  lemma {:induction false} LogicalNames(operator: string, operands: Json, depth: nat)
    requires LogicalError(operator, operands, depth) == None
    ensures Approved(OperatorName(operator) + OperatorNames(operands))
    decreases operands, 1
  {
    hide OperatorNames, NamesAt;
    OperandsNames(operands, 0, depth);
    ApprovedNode(operands);
    assert "$and"[1..] == "and" && "$or"[1..] == "or";
  }

  lemma {:induction false} OperandsNames(operands: Json, i: nat, depth: nat)
    requires operands.Arr? && OperandsError(operands, i, depth) == None
    ensures forall j :: i <= j < |operands.items| ==> Approved(NamesAt(operands, j))
    decreases operands, 0, |operands.items| - i
  {
    hide FilterError, OperatorNames, Approved;
    if i < |operands.items| {
      FilterNames(operands.items[i], depth + 1);
      assert OperatorName(KeyAt(operands, i)) == {};
      assert NamesAt(operands, i) == OperatorNames(operands.items[i]);
      OperandsNames(operands, i + 1, depth);
    }
  }

  lemma {:induction false} FilterNames(v: Json, depth: nat)
    requires FilterError(v, depth) == None
    ensures Approved(OperatorNames(v))
    decreases v, 1
  {
    hide OperatorNames, NamesAt, Approved, FilterFieldsError;
    FilterFieldsNames(v, 0, depth);
    ApprovedNode(v);
  }

  lemma {:induction false} FilterFieldsNames(v: Json, i: nat, depth: nat)
    requires v.Obj? && FilterFieldsError(v, i, depth) == None
    ensures forall j :: i <= j < |v.fields| ==> Approved(NamesAt(v, j))
    decreases v, 0, |v.fields| - i
  {
    hide LogicalError, FieldError, OperatorName, OperatorNames, Approved, IsOperator;
    if i < |v.fields| {
      if IsOperator(v.fields[i].key) {
        LogicalNames(v.fields[i].key, v.fields[i].value, depth);
      } else {
        FieldNames(v.fields[i].key, v.fields[i].value);
      }
      FilterFieldsNames(v, i + 1, depth);
    }
  }

  lemma StageNames(stage: Json)
    requires StageError(stage) == None
    ensures Approved(OperatorNames(stage))
  {
    hide OperatorNames, FilterError, FlagsError;
    FlagStages(stage);
    StageHolds(stage);
    if stage.fields[0].key == "$match" {
      FilterNames(stage.fields[0].value, 0);
    }
    assert "$match"[1..] == "match" && "$project"[1..] == "project" && "$sort"[1..] == "sort" && "$limit"[1..] == "limit";
  }

  lemma {:induction false} StagesNames(v: Json, i: nat)
    requires v.Arr? && StagesError(v, i) == None
    ensures forall j :: i <= j < |v.items| ==> Approved(NamesAt(v, j))
    decreases |v.items| - i
  {
    hide StageError, OperatorNames, Approved;
    if i < |v.items| {
      StageNames(v.items[i]);
      assert OperatorName(KeyAt(v, i)) == {};
      assert NamesAt(v, i) == OperatorNames(v.items[i]);
      StagesNames(v, i + 1);
    }
  }

  /** An accepted command contributes approved names only. */
  lemma CommandNames(v: Json)
    requires TargetError(v) == None && BodyError(v) == None
    ensures Approved(FunctionsOf(v))
  {
    hide OperatorNames, FilterError, PipelineError, FlagsError, At, ExactKeys, NamesAt;
    BodyHolds(v);
    TargetsHoldNothing(v);
    var kind := At(v, "kind");
    if kind == Str("find") || kind == Str("explain") {
      FilterNames(At(v, "filter"), 0);
    } else if kind == Str("aggregate") {
      PipelineNames(At(v, "pipeline"));
    }
  }

  lemma PipelineNames(v: Json)
    requires PipelineError(v) == None
    ensures Approved(OperatorNames(v))
  {
    hide OperatorNames, NamesAt, Approved, StagesError;
    StagesNames(v, 0);
    ApprovedNode(v);
  }

  lemma NamesAreIdentifiers(name: string)
    requires name in FUNCTION_NAMES
    ensures Lower(name) == name && IsIdentifier(name)
  {
    assert forall i :: 0 <= i < |name| ==> IsLower(name[i]);
    assert Lower(name) == name;
  }

  /** What the parser read is normal, so the planner leaves it as it is. */
  lemma ReadingIsNormal(v: Json, options: Options, op: Operation)
    requires ReadError(v, options) == None && ReadsAs(v, options, op)
    ensures IsNormal(op) && Normal(op) == op && StrictlySorted(op.functions, Whole)
    ensures forall f :: f in op.functions ==> f in FUNCTION_NAMES
  {
    CommandNames(v);
    hide ReadError, SortBy, Less, FunctionsOf, At, TypedName, Normal;
    forall i | 0 <= i < |op.functions|
      ensures op.functions[i] in FUNCTION_NAMES && Lower(op.functions[i]) == op.functions[i]
    {
      assert op.functions[i] in op.functions;
      NamesAreIdentifiers(op.functions[i]);
    }
    assert LowerAll(op.functions) == op.functions;
    SortSorted(options.parameterClassifications, Whole);
    NormalIsFixed(op);
  }

  /** The planner accepts it exactly when database and collection are also planner identifiers. */
  lemma PlannerAcceptsReadingIff(v: Json, options: Options, op: Operation)
    requires ReadError(v, options) == None && ReadsAs(v, options, op)
    ensures OperationError(op).None? <==>
              forall o :: o in op.objects ==> IsIdentifier(o.schema) && IsIdentifier(o.name)
  {
    hide ReadsAs, ReadError, OperationError, IsIdentifier, IsProtectedRef, Less, Normal, IsNormal, StrictlySorted;
    ReadingIsNormal(v, options, op);
    OptionsHold(v, options);
    ReadShape(v, options, op);
    AcceptableIff(op);
    assert forall o :: o in op.objects ==> o == op.objects[0];
    FewNames(op.functions);
    forall f | f in op.functions
      ensures IsIdentifier(Lower(f))
    {
      NamesAreIdentifiers(f);
    }
  }

  /** The command that lists the collections of a database. */
  function Listing(database: string): Json {
    Obj([Field("kind", Str("introspect")), Field("database", Str(database)), Field("collection", Str(CATALOG))])
  }

  lemma ListingFields(database: string)
    ensures At(Listing(database), "kind") == Str("introspect") && At(Listing(database), "database") == Str(database)
    ensures At(Listing(database), "collection") == Str(CATALOG) && ExactKeys(Listing(database), INTROSPECT_KEYS)
  {
    var fields := Listing(database).fields;
    assert Names(fields) == INTROSPECT_KEYS;
    assert Lookup(fields[2..], "collection") == Str(CATALOG);
    assert Lookup(fields[1..], "database") == Str(database);
    assert fields[1..][1..] == fields[2..];
    assert Lookup(fields[1..], "collection") == Lookup(fields[2..], "collection");
  }

  lemma ListingHoldsNothing(database: string)
    ensures References(Listing(database)) == {} && OperatorNames(Listing(database)) == {}
  {
    var v := Listing(database);
    assert Children(v) == [Str("introspect"), Str(database), Str(CATALOG)];
    forall i | 0 <= i < |Children(v)|
      ensures References(Children(v)[i]) == {} && NamesAt(v, i) == {}
    {
      assert Children(Children(v)[i]) == [];
    }
    assert !IsToken(v);
  }

  lemma TextIsAdmitted(s: string, depth: nat, nodes: nat)
    requires depth <= 16 && nodes < 512
    ensures PreflightFrom(Str(s), depth, nodes) == Ok(nodes + 1)
  {
    assert Children(Str(s)) == [];
  }

  lemma ListingIsAdmitted(database: string)
    ensures PreflightFrom(Listing(database), 0, 0).Ok?
  {
    var v := Listing(database);
    assert Children(v) == [Str("introspect"), Str(database), Str(CATALOG)];
    TextIsAdmitted("introspect", 1, 1);
    TextIsAdmitted(database, 1, 2);
    TextIsAdmitted(CATALOG, 1, 3);
    assert KeyAt(v, 0) == "kind" && KeyAt(v, 1) == "database" && KeyAt(v, 2) == "collection";
    hide Children, KeyAt, Listing;
    assert PreflightChildren(v, 3, 0, 4) == Ok(4);
    assert PreflightChildren(v, 2, 0, 3) == Ok(4);
    assert PreflightChildren(v, 1, 0, 2) == Ok(4);
    assert PreflightChildren(v, 0, 0, 1) == Ok(4);
  }

  lemma CatalogIsName()
    ensures IsName(CATALOG, 127) && !("system" <= CATALOG) && IsIdentifier(CATALOG)
  {
    assert CATALOG[0] == 'c' && "system"[0] == 's';
  }

  lemma ListingIsRead(database: string, ref: string)
    requires IsName(database, 63) && database !in ["admin", "config", "local"] && IsProtectedRef(ref)
    ensures var options := Options(ref, []);
            var op := Operation("introspect", 1, ref, [ObjectRef(database, CATALOG, "catalog")], [], []);
            && ReadError(Listing(database), options) == None && ReadsAs(Listing(database), options, op)
  {
    ListingFields(database);
    ListingHoldsNothing(database);
    ListingIsAdmitted(database);
    CatalogIsName();
    assert FirstNumbers(0) == {};
    hide IsName, IsIdentifier, IsProtectedRef, References, OperatorNames, PreflightFrom, At, ExactKeys;
  }

  /** Listing any database is read, and the planner refuses it exactly when the database is no identifier
      to it. */
  lemma ListingIsPlannedIff(database: string, ref: string)
    requires IsName(database, 63) && database !in ["admin", "config", "local"] && IsProtectedRef(ref)
    ensures var options := Options(ref, []);
            var op := Operation("introspect", 1, ref, [ObjectRef(database, CATALOG, "catalog")], [], []);
            && ReadError(Listing(database), options) == None && ReadsAs(Listing(database), options, op)
            && (OperationError(op).None? <==> IsIdentifier(database))
  {
    var v, options := Listing(database), Options(ref, []);
    var op := Operation("introspect", 1, ref, [ObjectRef(database, CATALOG, "catalog")], [], []);
    ListingIsRead(database, ref);
    CatalogIsName();
    hide Listing, IsName, IsIdentifier, IsProtectedRef, ReadError, ReadsAs, OperationError;
    PlannerAcceptsReadingIff(v, options, op);
    assert op.objects[0] in op.objects;
  }

  /** The collections of a one-letter database can be read, and never planned. */
  lemma OneLetterDatabaseIsRefused(ref: string)
    requires IsProtectedRef(ref)
    ensures var op := Operation("introspect", 1, ref, [ObjectRef("a", CATALOG, "catalog")], [], []);
            && ReadError(Listing("a"), Options(ref, [])) == None && ReadsAs(Listing("a"), Options(ref, []), op)
            && OperationError(op).Some?
  {
    hide IsProtectedRef, Listing, ReadError, ReadsAs, OperationError;
    ListingIsPlannedIff("a", ref);
  }

  lemma OptionsHold(v: Json, options: Options)
    requires ReadError(v, options) == None
    ensures IsProtectedRef(options.protectedRequestRef) && |options.parameterClassifications| <= 64
    ensures forall c :: c in options.parameterClassifications ==> c in CLASSIFICATIONS
  {
    hide PreflightFrom, TargetError, BodyError, References, IsProtectedRef, FirstNumbers;
  }

  lemma ReadShape(v: Json, options: Options, op: Operation)
    requires ReadsAs(v, options, op)
    ensures (op.kind == "select" || op.kind == "introspect") && op.statementCount == 1
    ensures op.protectedRequestRef == options.protectedRequestRef
    ensures |op.objects| == 1 && op.objects[0].type' in ["table", "view", "catalog"]
    ensures |op.parameterClassifications| == |options.parameterClassifications|
    ensures forall c :: c in op.parameterClassifications <==> c in options.parameterClassifications
  {
    hide SortBy, FunctionsOf, At;
    SortMembers(options.parameterClassifications, Whole);
  }

  lemma FewNames(functions: seq<string>)
    requires StrictlySorted(functions, Whole) && forall f :: f in functions ==> f in FUNCTION_NAMES
    ensures |functions| <= |FUNCTION_NAMES|
  {
    hide Less;
    StrictIsDistinct(functions, Whole);
    DistinctIffSetSize(functions, Whole);
    DistinctIffSetSize(FUNCTION_NAMES, Whole);
    SubsetSize(KeySet(functions, Whole), KeySet(FUNCTION_NAMES, Whole));
  }

  /** A planned command, read again under its plan, reads as the plan's operation: the comparison never
      rejects it, and it runs when it brings one parameter per classification. */
  lemma PlannedCommandNeverMismatches(v: Json, options: Options, op: Operation)
    requires ReadError(v, options) == None && ReadsAs(v, options, op) && OperationError(op).None?
    ensures var planned := Normal(op);
            && ReadError(v, OptionsOf(planned)) == None && ReadsAs(v, OptionsOf(planned), planned)
            && Bindable(v, |planned.parameterClassifications|)
  {
    hide ReadError, ReadsAs, Normal, OperationError, Bindable;
    ReadingIsNormal(v, options, op);
    RereadingAgrees(v, options, op);
    AcceptedIsBindable(v, OptionsOf(op));
  }
}
