/** The grammar of the MongoDB commands that are read: what a filter, a pipeline and a
    whole command may hold, stated on the JSON itself. */
module MongoDbAcceptance {
  import opened Results
  import opened Text
  import opened CodeUnits
  import P = ProbeOperation
  import opened MongoDbCommand
  import opened MongoDbProbe

  // ---- Filters and pipelines ----

  predicate WordTail(c: char) { 'a' <= c <= 'z' || '0' <= c <= '9' || c == '_' }

  /** Words joined by dots: each `_id`, or a lower-case letter followed by letters, digits and underscores. */
  ghost predicate FieldName(s: string) {
    exists words: seq<string> :: s == Join(words, ".") && words != [] && forall w :: w in words ==> Word(w)
  }

  predicate Word(w: string) {
    w == "_id" || (w != "" && 'a' <= w[0] <= 'z' && forall c :: c in w ==> WordTail(c))
  }

  /** `{"$param": n}` for the `n`th of at most 64 parameters. */
  predicate Parameter(v: Json, n: int) { v == Obj([Field("$param", Number(n))]) && 0 <= n <= 63 }

  ghost predicate Condition(f: Field) {
    if f.key == "$exists" then f.value.Bool?
    else f.key in ["$eq", "$ne", "$gt", "$gte", "$lt", "$lte", "$in"] && exists n :: Parameter(f.value, n)
  }

  ghost predicate Conditions(v: Json) {
    v.Obj? && 1 <= |v.fields| <= 4 && forall f :: f in v.fields ==> Condition(f)
  }

  /** Field conditions, and conjunctions and disjunctions of 1 to 32 filters, at most 12 deep. */
  ghost predicate Filter(v: Json, depth: nat) {
    depth <= 12 && v.Obj? && forall i :: 0 <= i < |v.fields| ==> Clause(v.fields[i], depth)
  }

  ghost predicate Clause(f: Field, depth: nat)
    decreases f
  {
    if f.key != "" && f.key[0] == '$' then
      && f.key in ["$and", "$or"] && f.value.Arr? && 1 <= |f.value.items| <= 32
      && forall i :: 0 <= i < |f.value.items| ==> Filter(f.value.items[i], depth + 1)
    else FieldName(f.key) && Conditions(f.value)
  }

  ghost predicate Flags(v: Json, maximum: nat, a: int, b: int) {
    && v.Obj? && 1 <= |v.fields| <= maximum
    && forall f :: f in v.fields ==> FieldName(f.key) && (f.value == Number(a) || f.value == Number(b))
  }

  ghost predicate Stage(v: Json) {
    && v.Obj? && |v.fields| == 1
    && var body := v.fields[0].value;
    match v.fields[0].key
    case "$match" => Filter(body, 0)
    case "$project" => Flags(body, 128, 0, 1)
    case "$sort" => Flags(body, 32, 1, -1)
    case "$limit" => body.Number? && 1 <= body.n <= 10000
    case _ => false
  }

  ghost predicate Pipeline(v: Json) {
    v.Arr? && 1 <= |v.items| <= 32 && forall i :: 0 <= i < |v.items| ==> Stage(v.items[i])
  }

  // ---- Commands ----

  predicate Named(v: Json, maximum: nat) {
    && v.Str? && 1 <= |v.s| <= maximum && 'a' <= v.s[0] <= 'z'
    && forall c :: c in v.s ==> WordTail(c) || c == '-'
  }

  /** An object with exactly these keys, once each. */
  ghost predicate HasExactly(v: Json, keys: seq<string>) {
    && v.Obj? && |v.fields| == |keys|
    && forall k :: k in keys ==> exists i :: 0 <= i < |v.fields| && v.fields[i].key == k
  }

  ghost predicate Holds(v: Json, key: string, value: Json) { v.Obj? && Field(key, value) in v.fields }

  ghost predicate Query(v: Json) {
    exists f, p, s :: Holds(v, "filter", f) && Holds(v, "projection", p) && Holds(v, "sort", s)
                      && Filter(f, 0) && Flags(p, 128, 0, 1) && Flags(s, 32, 1, -1)
  }

  /** A database and a collection that are not the server's own. */
  ghost predicate OwnTarget(v: Json) {
    && (exists d :: Holds(v, "database", d) && Named(d, 63) && d.s !in ["admin", "config", "local"])
    && (exists c :: Holds(v, "collection", c) && Named(c, 127) && !("system" <= c.s))
  }

  ghost predicate Find(v: Json) {
    && HasExactly(v, ["kind", "database", "collection", "filter", "projection", "sort"])
    && Holds(v, "kind", Str("find")) && Query(v)
  }

  ghost predicate Explain(v: Json) {
    && HasExactly(v, ["kind", "database", "collection", "filter", "projection", "sort", "verbosity"])
    && Holds(v, "kind", Str("explain")) && Holds(v, "verbosity", Str("queryPlanner")) && Query(v)
  }

  ghost predicate Aggregate(v: Json) {
    && HasExactly(v, ["kind", "database", "collection", "pipeline"])
    && Holds(v, "kind", Str("aggregate")) && exists p :: Holds(v, "pipeline", p) && Pipeline(p)
  }

  ghost predicate Introspect(v: Json) {
    && HasExactly(v, ["kind", "database", "collection"])
    && Holds(v, "kind", Str("introspect")) && Holds(v, "collection", Str("collections_catalog"))
  }

  /** A find, an explained find, an aggregation, or a listing of the collections catalog. */
  ghost predicate Command(v: Json) {
    OwnTarget(v) && (Find(v) || Explain(v) || Aggregate(v) || Introspect(v))
  }

  /** Some parameter token of the value, at any depth, has this operand. */
  ghost predicate Refers(v: Json, t: Json) {
    if v.Obj? && |v.fields| == 1 && v.fields[0].key == "$param" then t == v.fields[0].value
    else
      || (v.Arr? && exists i :: 0 <= i < |v.items| && Refers(v.items[i], t))
      || (v.Obj? && exists i :: 0 <= i < |v.fields| && Refers(v.fields[i].value, t))
  }

  /** Some object in the value, at any depth, has this key. */
  ghost predicate HasKey(v: Json, key: string) {
    || (v.Arr? && exists i :: 0 <= i < |v.items| && HasKey(v.items[i], key))
    || (v.Obj? && exists i :: 0 <= i < |v.fields| && (v.fields[i].key == key || HasKey(v.fields[i].value, key)))
  }

  // ---- Field names ----

  lemma WordIff(w: string)
    ensures IsFieldPart(w) <==> Word(w)
  {
  }

  lemma WordHasNoDot(w: string)
    requires Word(w)
    ensures '.' !in w
  {
    if w == "_id" {
      assert w[0] == '_' && w[1] == 'i' && w[2] == 'd';
    }
  }

  lemma FieldNameIff(s: string)
    ensures IsField(s) <==> FieldName(s)
  {
    hide IsFieldPart, Word, Split, Join;
    var parts := Split(s, '.');
    forall p
      ensures IsFieldPart(p) <==> Word(p)
    {
      WordIff(p);
    }
    JoinSplit(s, '.');
    if IsField(s) {
      assert s == Join(parts, ".");
    }
    if words: seq<string> :| s == Join(words, ".") && words != [] && forall w :: w in words ==> Word(w) {
      forall w | w in words
        ensures '.' !in w
      {
        WordHasNoDot(w);
      }
      SplitJoin(words, '.');
    }
  }

  // ---- Filters ----

  lemma ParameterIff(v: Json)
    ensures ParameterError(v).None? <==> exists n :: Parameter(v, n)
  {
    if ParameterError(v).None? {
      assert v.fields == [v.fields[0]] && v.fields[0] == Field("$param", Number(v.fields[0].value.n));
      assert Parameter(v, v.fields[0].value.n);
    }
  }

  lemma ConditionIff(f: Field)
    ensures ConditionError(f.key, f.value).None? <==> Condition(f)
  {
    hide ParameterError, Parameter;
    ParameterIff(f.value);
  }

  lemma {:induction false} ConditionsFromIff(v: Json, i: nat)
    requires v.Obj?
    ensures ConditionsError(v, i).None? <==> forall j :: i <= j < |v.fields| ==> Condition(v.fields[j])
    decreases |v.fields| - i
  {
    hide ConditionError, Condition;
    if i < |v.fields| {
      ConditionIff(v.fields[i]);
      ConditionsFromIff(v, i + 1);
    }
  }

  lemma FieldErrorIff(field: string, v: Json)
    ensures FieldError(field, v).None? <==> FieldName(field) && Conditions(v)
  {
    hide IsField, FieldName, Condition, ConditionsError;
    FieldNameIff(field);
    if v.Obj? {
      ConditionsFromIff(v, 0);
    }
  }

  lemma {:induction false} FilterIff(v: Json, depth: nat)
    ensures FilterError(v, depth).None? <==> Filter(v, depth)
    decreases v, 1
  {
    hide FilterFieldsError, Clause;
    if v.Obj? {
      ClausesIff(v, 0, depth);
    }
  }

  lemma {:induction false} ClausesIff(v: Json, i: nat, depth: nat)
    requires v.Obj?
    ensures FilterFieldsError(v, i, depth).None? <==> forall j :: i <= j < |v.fields| ==> Clause(v.fields[j], depth)
    decreases v, 0, |v.fields| - i
  {
    hide LogicalError, FieldError, FieldName, Conditions;
    if i < |v.fields| {
      var f := v.fields[i];
      if IsOperator(f.key) {
        hide FilterFieldsError;
        LogicalIff(f, depth);
      } else {
        FieldErrorIff(f.key, f.value);
      }
      ClausesIff(v, i + 1, depth);
    }
  }

  lemma {:induction false} LogicalIff(f: Field, depth: nat)
    requires IsOperator(f.key)
    ensures LogicalError(f.key, f.value, depth).None? <==> Clause(f, depth)
    decreases f.value, 1
  {
    hide Filter, OperandsError, FieldName, Conditions;
    if f.value.Arr? {
      OperandsIff(f.value, 0, depth);
    }
  }

  lemma {:induction false} OperandsIff(v: Json, i: nat, depth: nat)
    requires v.Arr?
    ensures OperandsError(v, i, depth).None? <==> forall j :: i <= j < |v.items| ==> Filter(v.items[j], depth + 1)
    decreases v, 0, |v.items| - i
  {
    hide FilterError, Filter;
    if i < |v.items| {
      FilterIff(v.items[i], depth + 1);
      OperandsIff(v, i + 1, depth);
    }
  }

  // ---- Pipelines ----

  lemma FlagsIff(v: Json, maximum: nat, a: int, b: int)
    ensures FlagsError(v, maximum, {a, b}).None? <==> Flags(v, maximum, a, b)
  {
    hide IsField, FieldName;
    if v.Obj? {
      forall f | f in v.fields
        ensures IsField(f.key) <==> FieldName(f.key)
      {
        FieldNameIff(f.key);
      }
    }
  }

  lemma StageIff(v: Json)
    ensures StageError(v).None? <==> Stage(v)
  {
    hide FilterError, Filter, FlagsError, Flags;
    if v.Obj? && |v.fields| == 1 {
      FilterIff(v.fields[0].value, 0);
      FlagsIff(v.fields[0].value, 128, 0, 1);
      FlagsIff(v.fields[0].value, 32, 1, -1);
    }
  }

  lemma {:induction false} StagesIff(v: Json, i: nat)
    requires v.Arr?
    ensures StagesError(v, i).None? <==> forall j :: i <= j < |v.items| ==> Stage(v.items[j])
    decreases |v.items| - i
  {
    hide StageError, Stage;
    if i < |v.items| {
      StageIff(v.items[i]);
      StagesIff(v, i + 1);
    }
  }

  lemma PipelineIff(v: Json)
    ensures PipelineError(v).None? <==> Pipeline(v)
  {
    hide StagesError, Stage;
    if v.Arr? {
      StagesIff(v, 0);
    }
  }

  // ---- No denied key in the grammar ----

  lemma CleanNode(v: Json)
    requires forall i :: 0 <= i < |Children(v)| ==> !Denied(KeyAt(v, i)) && Clean(Children(v)[i])
    ensures Clean(v)
  {
  }

  lemma ScalarIsClean(v: Json)
    requires !v.Arr? && !v.Obj?
    ensures Clean(v)
  {
  }

  lemma PlainIsNotDenied(key: string)
    requires FieldName(key)
    ensures !Denied(key)
  {
    hide FieldName, IsField;
    FieldNameIff(key);
    FieldsAreNotOperators(key);
    assert Denied(key) ==> IsOperator(key);
  }

  lemma ConditionIsClean(f: Field)
    requires Condition(f)
    ensures !Denied(f.key) && Clean(f.value)
  {
    assert |"$eq"| == 3 && |"$ne"| == 3 && |"$gt"| == 3 && |"$gte"| == 4 && |"$lt"| == 3 && |"$lte"| == 4 && |"$in"| == 3;
    assert |"$out"| == 4 && |"$merge"| == 6 && |"$where"| == 6 && |"$function"| == 9 && |"$accumulator"| == 12;
    assert "$gte"[1] == 'g' && "$lte"[1] == 'l' && "$out"[1] == 'o' && "$exists"[1] == 'e' && |"$exists"| == 7;
    if f.value.Obj? {
      ScalarIsClean(f.value.fields[0].value);
      assert Children(f.value) == [f.value.fields[0].value] && KeyAt(f.value, 0) == "$param";
      assert "$param"[1] == 'p' && "$merge"[1] == 'm' && "$where"[1] == 'w' && |"$param"| == 6;
      CleanNode(f.value);
    }
  }

  lemma ConditionsAreClean(v: Json)
    requires Conditions(v)
    ensures Clean(v)
  {
    hide Condition, Denied;
    forall i | 0 <= i < |Children(v)|
      ensures !Denied(KeyAt(v, i)) && Clean(Children(v)[i])
    {
      assert v.fields[i] in v.fields;
      ConditionIsClean(v.fields[i]);
    }
    CleanNode(v);
  }

  lemma FlagsAreClean(v: Json, maximum: nat, a: int, b: int)
    requires Flags(v, maximum, a, b)
    ensures Clean(v)
  {
    hide FieldName, Denied;
    forall i | 0 <= i < |Children(v)|
      ensures !Denied(KeyAt(v, i)) && Clean(Children(v)[i])
    {
      assert v.fields[i] in v.fields;
      PlainIsNotDenied(v.fields[i].key);
      ScalarIsClean(v.fields[i].value);
    }
    CleanNode(v);
  }

  lemma {:induction false} FilterIsClean(v: Json, depth: nat)
    requires Filter(v, depth)
    ensures Clean(v)
    decreases v, 1
  {
    hide Clause, Denied;
    forall i | 0 <= i < |Children(v)|
      ensures !Denied(KeyAt(v, i)) && Clean(Children(v)[i])
    {
      ClauseIsClean(v.fields[i], depth);
    }
    CleanNode(v);
  }

  lemma {:induction false} ClauseIsClean(f: Field, depth: nat)
    requires Clause(f, depth)
    ensures !Denied(f.key) && Clean(f.value)
    decreases f.value, 2
  {
    hide FieldName, Conditions, Filter;
    if f.key != "" && f.key[0] == '$' {
      assert "$and"[1] == 'a' && "$or"[1] == 'o' && |"$and"| == 4 && |"$or"| == 3 && |"$out"| == 4 && "$out"[1] == 'o';
      assert |"$merge"| == 6 && |"$where"| == 6 && |"$function"| == 9 && |"$accumulator"| == 12;
      forall i | 0 <= i < |Children(f.value)|
        ensures !Denied(KeyAt(f.value, i)) && Clean(Children(f.value)[i])
      {
        FilterIsClean(f.value.items[i], depth + 1);
        assert KeyAt(f.value, i) == "";
      }
      CleanNode(f.value);
    } else {
      PlainIsNotDenied(f.key);
      ConditionsAreClean(f.value);
    }
  }

  lemma StageIsClean(v: Json)
    requires Stage(v)
    ensures Clean(v)
  {
    hide Filter, Flags;
    var key, body := v.fields[0].key, v.fields[0].value;
    assert |"$match"| == 6 && "$match"[2] == 'a' && |"$project"| == 8 && |"$sort"| == 5 && |"$limit"| == 6 && "$limit"[1] == 'l';
    assert |"$merge"| == 6 && "$merge"[1] == 'm' && "$merge"[2] == 'e' && |"$where"| == 6 && "$where"[1] == 'w';
    assert |"$out"| == 4 && |"$function"| == 9 && |"$accumulator"| == 12 && "$match"[1] == 'm';
    if key == "$match" {
      FilterIsClean(body, 0);
    } else if key == "$project" {
      FlagsAreClean(body, 128, 0, 1);
    } else if key == "$sort" {
      FlagsAreClean(body, 32, 1, -1);
    } else {
      ScalarIsClean(body);
    }
    assert Children(v) == [body] && KeyAt(v, 0) == key;
    CleanNode(v);
  }

  lemma PipelineIsClean(v: Json)
    requires Pipeline(v)
    ensures Clean(v)
  {
    hide Stage;
    forall i | 0 <= i < |Children(v)|
      ensures !Denied(KeyAt(v, i)) && Clean(Children(v)[i])
    {
      StageIsClean(v.items[i]);
    }
    CleanNode(v);
  }

  // ---- The keys of a command ----

  lemma SameMultiset(xs: seq<string>, ys: seq<string>)
    requires DistinctKeys(xs, Whole) && DistinctKeys(ys, Whole) && forall x :: x in xs <==> x in ys
    ensures multiset(xs) == multiset(ys)
  {
    SortCanonical(xs, ys, Whole);
    SortMultiset(xs, Whole);
    SortMultiset(ys, Whole);
  }

  lemma HasExactlyIff(v: Json, keys: seq<string>)
    requires DistinctKeys(keys, Whole)
    ensures ExactKeys(v, keys) <==> HasExactly(v, keys)
  {
    if v.Obj? {
      var names := Names(v.fields);
      if ExactKeys(v, keys) {
        KeysPresent(v, keys);
        assert |multiset(names)| == |multiset(keys)|;
      }
      if HasExactly(v, keys) {
        DistinctIffSetSize(names, Whole);
        DistinctIffSetSize(keys, Whole);
        forall k | k in keys
          ensures k in names
        {
          var i :| 0 <= i < |v.fields| && v.fields[i].key == k;
          assert names[i] == k;
        }
        SubsetSize(KeySet(keys, Whole), KeySet(names, Whole));
        forall k | k in names
          ensures k in keys
        {
          assert k in KeySet(names, Whole);
        }
        SameMultiset(names, keys);
      }
    }
  }

  lemma HoldsIff(v: Json, keys: seq<string>, key: string, value: Json)
    requires DistinctKeys(keys, Whole) && ExactKeys(v, keys) && key in keys
    ensures Holds(v, key, value) <==> At(v, key) == value
  {
    hide At;
    KeysPresent(v, keys);
    var i :| 0 <= i < |v.fields| && v.fields[i].key == key;
    if Holds(v, key, value) {
      var j :| 0 <= j < |v.fields| && v.fields[j] == Field(key, value);
    }
    if At(v, key) == value {
      assert v.fields[i] == Field(key, value);
    }
  }

  lemma NamedIff(v: Json, maximum: nat)
    ensures v.Str? && IsName(v.s, maximum) <==> Named(v, maximum)
  {
  }

  ghost predicate Targets(v: Json) {
    && Named(At(v, "database"), 63) && At(v, "database").s !in ["admin", "config", "local"]
    && Named(At(v, "collection"), 127) && !("system" <= At(v, "collection").s)
  }

  lemma TargetIff(v: Json)
    requires At(v, "kind") in [Str("find"), Str("aggregate"), Str("explain"), Str("introspect")]
    ensures TargetError(v).None? <==> Targets(v)
  {
    hide At, IsName, Named;
    NamedIff(At(v, "database"), 63);
    NamedIff(At(v, "collection"), 127);
    assert |"find"| == 4 && |"aggregate"| == 9 && |"explain"| == 7 && |"introspect"| == 10 && |"mapReduce"| == 9;
    assert |"insert"| == 6 && |"update"| == 6 && |"delete"| == 6 && |"replace"| == 7 && |"findAndModify"| == 13;
    assert |"bulkWrite"| == 9 && "aggregate"[0] == 'a' && "explain"[0] == 'e' && "replace"[0] == 'r' && "mapReduce"[0] == 'm';
    assert "bulkWrite"[0] == 'b';
    var kind := At(v, "kind");
    assert Str("find") in [Str("find"), Str("aggregate"), Str("explain"), Str("introspect")];
    assert kind.s in READ_KINDS && kind.s !in WRITE_KINDS && kind.s != "mapReduce";
  }

  lemma TargetKinds(v: Json)
    requires TargetError(v).None?
    ensures At(v, "kind") in [Str("find"), Str("aggregate"), Str("explain"), Str("introspect")]
  {
    hide At;
  }

  lemma OwnTargetIff(v: Json, keys: seq<string>)
    requires DistinctKeys(keys, Whole) && ExactKeys(v, keys) && "database" in keys && "collection" in keys
    ensures OwnTarget(v) <==> Targets(v)
  {
    hide At, Holds, Named, ExactKeys;
    forall j
      ensures Holds(v, "database", j) <==> At(v, "database") == j
      ensures Holds(v, "collection", j) <==> At(v, "collection") == j
    {
      HoldsIff(v, keys, "database", j);
      HoldsIff(v, keys, "collection", j);
    }
  }

  lemma QueryIff(v: Json, keys: seq<string>)
    requires DistinctKeys(keys, Whole) && ExactKeys(v, keys) && "filter" in keys && "projection" in keys && "sort" in keys
    ensures QueryError(v).None? <==> Query(v)
  {
    hide At, Holds, ExactKeys, FilterError, Filter, FlagsError, Flags;
    forall j
      ensures Holds(v, "filter", j) <==> At(v, "filter") == j
      ensures Holds(v, "projection", j) <==> At(v, "projection") == j
      ensures Holds(v, "sort", j) <==> At(v, "sort") == j
    {
      HoldsIff(v, keys, "filter", j);
      HoldsIff(v, keys, "projection", j);
      HoldsIff(v, keys, "sort", j);
    }
    FilterIff(At(v, "filter"), 0);
    FlagsIff(At(v, "projection"), 128, 0, 1);
    FlagsIff(At(v, "sort"), 32, 1, -1);
  }

  lemma IntrospectKeys()
    ensures INTROSPECT_KEYS + ["pipeline"] == AGGREGATE_KEYS
    ensures DistinctKeys(INTROSPECT_KEYS, Whole) && "kind" in INTROSPECT_KEYS && "database" in INTROSPECT_KEYS
    ensures "collection" in INTROSPECT_KEYS
  {
    CommandKeys();
  }

  lemma FindIff(v: Json)
    ensures Find(v) <==> At(v, "kind") == Str("find") && BodyError(v).None?
    ensures Find(v) ==> (OwnTarget(v) <==> Targets(v))
  {
    hide At, Holds, ExactKeys, HasExactly, QueryError, Query, OwnTarget, Targets;
    CommandKeys();
    HasExactlyIff(v, FIND_KEYS);
    if ExactKeys(v, FIND_KEYS) {
      HoldsIff(v, FIND_KEYS, "kind", Str("find"));
      QueryIff(v, FIND_KEYS);
      OwnTargetIff(v, FIND_KEYS);
    }
  }

  lemma ExplainIff(v: Json)
    ensures Explain(v) <==> At(v, "kind") == Str("explain") && BodyError(v).None?
    ensures Explain(v) ==> (OwnTarget(v) <==> Targets(v))
  {
    hide At, Holds, ExactKeys, HasExactly, QueryError, Query, OwnTarget, Targets;
    CommandKeys();
    HasExactlyIff(v, EXPLAIN_KEYS);
    if ExactKeys(v, EXPLAIN_KEYS) {
      HoldsIff(v, EXPLAIN_KEYS, "kind", Str("explain"));
      HoldsIff(v, EXPLAIN_KEYS, "verbosity", Str("queryPlanner"));
      QueryIff(v, EXPLAIN_KEYS);
      OwnTargetIff(v, EXPLAIN_KEYS);
    }
  }

  lemma AggregateIff(v: Json)
    ensures Aggregate(v) <==> At(v, "kind") == Str("aggregate") && BodyError(v).None?
    ensures Aggregate(v) ==> (OwnTarget(v) <==> Targets(v))
  {
    hide At, Holds, ExactKeys, HasExactly, PipelineError, Pipeline, OwnTarget, Targets;
    CommandKeys();
    HasExactlyIff(v, AGGREGATE_KEYS);
    PipelineIff(At(v, "pipeline"));
    if ExactKeys(v, AGGREGATE_KEYS) {
      HoldsIff(v, AGGREGATE_KEYS, "kind", Str("aggregate"));
      HoldsIff(v, AGGREGATE_KEYS, "pipeline", At(v, "pipeline"));
      forall p | Holds(v, "pipeline", p)
        ensures p == At(v, "pipeline")
      {
        HoldsIff(v, AGGREGATE_KEYS, "pipeline", p);
      }
      OwnTargetIff(v, AGGREGATE_KEYS);
    }
  }

  lemma IntrospectIff(v: Json)
    ensures Introspect(v) <==> At(v, "kind") == Str("introspect") && BodyError(v).None?
    ensures Introspect(v) ==> (OwnTarget(v) <==> Targets(v))
  {
    hide At, Holds, ExactKeys, HasExactly, OwnTarget, Targets;
    IntrospectKeys();
    HasExactlyIff(v, INTROSPECT_KEYS);
    KindsDiffer();
    if ExactKeys(v, INTROSPECT_KEYS) {
      HoldsIff(v, INTROSPECT_KEYS, "kind", Str("introspect"));
      HoldsIff(v, INTROSPECT_KEYS, "collection", Str("collections_catalog"));
      OwnTargetIff(v, INTROSPECT_KEYS);
    }
  }

  lemma KindsDiffer()
    ensures Str("introspect") !in [Str("find"), Str("explain"), Str("aggregate")]
  {
    assert |"introspect"| == 10 && |"find"| == 4 && |"explain"| == 7 && |"aggregate"| == 9;
  }

  /** What the target and body checks accept is exactly the commands of the grammar. */
  lemma CommandIff(v: Json)
    ensures TargetError(v).None? && BodyError(v).None? <==> Command(v)
  {
    hide At, Holds, HasExactly, BodyError, TargetError, Query, Targets, Named, Pipeline;
    FindIff(v);
    ExplainIff(v);
    AggregateIff(v);
    IntrospectIff(v);
    hide Find, Explain, Aggregate, Introspect, OwnTarget;
    if TargetError(v).None? {
      TargetKinds(v);
      TargetIff(v);
    }
    if Command(v) {
      TargetIff(v);
    }
  }

  lemma {:induction false} ReferencesIff(v: Json, t: Json)
    ensures t in References(v) <==> Refers(v, t)
    decreases v
  {
    if !IsToken(v) {
      hide IsToken;
      forall i | 0 <= i < |Children(v)|
        ensures t in References(Children(v)[i]) <==> Refers(Children(v)[i], t)
      {
        ReferencesIff(Children(v)[i], t);
      }
      if t in References(v) {
        var i :| 0 <= i < |Children(v)| && t in References(Children(v)[i]);
        assert Refers(Children(v)[i], t);
      }
      if v.Arr? && exists i :: 0 <= i < |v.items| && Refers(v.items[i], t) {
        var i :| 0 <= i < |v.items| && Refers(v.items[i], t);
        assert Children(v)[i] == v.items[i];
      }
      if v.Obj? && exists i :: 0 <= i < |v.fields| && Refers(v.fields[i].value, t) {
        var i :| 0 <= i < |v.fields| && Refers(v.fields[i].value, t);
        assert Children(v)[i] == v.fields[i].value;
      }
    }
  }

  /** Clean means that none of the keys that write or run code on the server occurs anywhere. */
  lemma {:induction false} CleanIff(v: Json)
    ensures Clean(v) <==>
              && !HasKey(v, "$out") && !HasKey(v, "$merge")
              && !HasKey(v, "$where") && !HasKey(v, "$function") && !HasKey(v, "$accumulator")
    decreases v
  {
    forall i | 0 <= i < |Children(v)|
      ensures Clean(Children(v)[i]) <==>
                && !HasKey(Children(v)[i], "$out") && !HasKey(Children(v)[i], "$merge")
                && !HasKey(Children(v)[i], "$where") && !HasKey(Children(v)[i], "$function")
                && !HasKey(Children(v)[i], "$accumulator")
    {
      CleanIff(Children(v)[i]);
    }
    hide Denied;
    DeniedIff(v);
    KeysIff(v, "$out");
    KeysIff(v, "$merge");
    KeysIff(v, "$where");
    KeysIff(v, "$function");
    KeysIff(v, "$accumulator");
    hide HasKey, Children, KeyAt;
    if Clean(v) {
      forall i | 0 <= i < |Children(v)|
        ensures !Denied(KeyAt(v, i)) && Clean(Children(v)[i])
      {
      }
    }
  }

  lemma DeniedIff(v: Json)
    ensures forall i :: 0 <= i < |Children(v)| ==>
              (Denied(KeyAt(v, i)) <==> KeyAt(v, i) in ["$out", "$merge", "$where", "$function", "$accumulator"])
  {
    hide Children, KeyAt;
  }

  lemma KeysIff(v: Json, key: string)
    requires key != ""
    ensures HasKey(v, key) <==> exists i :: 0 <= i < |Children(v)| && (KeyAt(v, i) == key || HasKey(Children(v)[i], key))
  {
    if HasKey(v, key) {
      if v.Arr? {
        var i :| 0 <= i < |v.items| && HasKey(v.items[i], key);
        assert Children(v)[i] == v.items[i];
      } else {
        var i :| 0 <= i < |v.fields| && (v.fields[i].key == key || HasKey(v.fields[i].value, key));
        assert Children(v)[i] == v.fields[i].value;
      }
    }
    if exists i :: 0 <= i < |Children(v)| && (KeyAt(v, i) == key || HasKey(Children(v)[i], key)) {
      var i :| 0 <= i < |Children(v)| && (KeyAt(v, i) == key || HasKey(Children(v)[i], key));
      if v.Arr? {
        assert HasKey(v.items[i], key);
      } else {
        assert v.fields[i].key == key || HasKey(v.fields[i].value, key);
      }
    }
  }

  lemma PartIsClean(v: Json, keys: seq<string>, i: nat)
    requires TargetError(v).None? && BodyError(v).None? && v.Obj? && i < |v.fields|
    requires || (keys == FIND_KEYS && At(v, "kind") == Str("find"))
             || (keys == EXPLAIN_KEYS && At(v, "kind") == Str("explain"))
             || (keys == AGGREGATE_KEYS && At(v, "kind") == Str("aggregate"))
             || (keys == INTROSPECT_KEYS && At(v, "kind") == Str("introspect"))
    requires ExactKeys(v, keys) && DistinctKeys(keys, Whole) && forall k :: k in keys ==> !IsOperator(k)
    ensures !Denied(v.fields[i].key) && Clean(v.fields[i].value)
  {
    hide At, ExactKeys, FilterError, FlagsError, PipelineError, Clean, Filter, Flags, Pipeline;
    KeysPresent(v, keys);
    var key, value := v.fields[i].key, v.fields[i].value;
    assert Denied(key) ==> IsOperator(key);
    if key in INTROSPECT_KEYS {
      TargetTexts(v);
      ScalarIsClean(value);
    } else if key == "filter" {
      FilterIff(value, 0);
      FilterIsClean(value, 0);
    } else if key == "projection" {
      FlagsIff(value, 128, 0, 1);
      FlagsAreClean(value, 128, 0, 1);
    } else if key == "sort" {
      FlagsIff(value, 32, 1, -1);
      FlagsAreClean(value, 32, 1, -1);
    } else if key == "pipeline" {
      PipelineIff(value);
      PipelineIsClean(value);
    } else {
      assert value == Str("queryPlanner");
      ScalarIsClean(value);
    }
  }

  lemma KeysOfCommand(v: Json) returns (keys: seq<string>)
    requires TargetError(v).None? && BodyError(v).None?
    ensures || (keys == FIND_KEYS && At(v, "kind") == Str("find"))
            || (keys == EXPLAIN_KEYS && At(v, "kind") == Str("explain"))
            || (keys == AGGREGATE_KEYS && At(v, "kind") == Str("aggregate"))
            || (keys == INTROSPECT_KEYS && At(v, "kind") == Str("introspect"))
    ensures ExactKeys(v, keys) && DistinctKeys(keys, Whole) && forall k :: k in keys ==> !IsOperator(k)
  {
    hide At, ExactKeys, TargetError, IsOperator, QueryError, PipelineError;
    CommandKeys();
    IntrospectKeys();
    TargetKinds(v);
    keys := if At(v, "kind") == Str("find") then FIND_KEYS else if At(v, "kind") == Str("explain") then EXPLAIN_KEYS
      else if At(v, "kind") == Str("aggregate") then AGGREGATE_KEYS else INTROSPECT_KEYS;
  }

  lemma CommandIsClean(v: Json)
    requires TargetError(v).None? && BodyError(v).None? && v.Obj?
    ensures Clean(v)
  {
    hide At, ExactKeys, TargetError, BodyError, IsOperator, Denied, Clean, DistinctKeys;
    var keys := KeysOfCommand(v);
    forall i | 0 <= i < |Children(v)|
      ensures !Denied(KeyAt(v, i)) && Clean(Children(v)[i])
    {
      PartIsClean(v, keys, i);
    }
    CleanNode(v);
  }

  ghost predicate OptionsFit(options: Options) {
    && P.IsProtectedRef(options.protectedRequestRef) && |options.parameterClassifications| <= 64
    && forall c :: c in options.parameterClassifications ==> c in ["public", "internal", "confidential", "restricted", "secret"]
  }

  /** A command is read exactly when it is in the grammar, at most 16 levels deep, of at most 512 nodes and
      128 items to a list, its options fit, and the operands of its parameter tokens are 0..n-1 for the n
      classifications. */
  lemma CommandIsReadIff(v: Json, options: Options)
    ensures ReadError(v, options).None? <==>
              && Command(v) && Shallow(v, 16) && Size(v) <= 512 && Narrow(v) && OptionsFit(options)
              && forall t :: Refers(v, t) <==> t.Number? && 0 <= t.n < |options.parameterClassifications|
  {
    hide Command, TargetError, BodyError, References, PreflightFrom, Shallow, Size, Narrow, Clean, P.IsProtectedRef, Refers,
      FirstNumbers;
    PreflightExact(v, 0, 0);
    CommandIff(v);
    if v.Obj? && TargetError(v).None? && BodyError(v).None? {
      CommandIsClean(v);
    }
    CommandIsObject(v);
    OperandsAreIff(v, |options.parameterClassifications|);
  }

  lemma CommandIsObject(v: Json)
    ensures Command(v) ==> v.Obj?
  {
  }

  lemma OperandsAreIff(v: Json, n: nat)
    ensures References(v) == FirstNumbers(n) <==> forall t :: Refers(v, t) <==> t.Number? && 0 <= t.n < n
  {
    hide References, Refers;
    forall t
      ensures t in References(v) <==> Refers(v, t)
    {
      ReferencesIff(v, t);
    }
    assert forall t :: t in FirstNumbers(n) <==> t.Number? && 0 <= t.n < n;
    hide FirstNumbers;
    if forall t :: t in References(v) <==> t in FirstNumbers(n) {
      assert References(v) == FirstNumbers(n);
    }
    if forall t :: Refers(v, t) <==> t.Number? && 0 <= t.n < n {
      forall t
        ensures t in References(v) <==> t in FirstNumbers(n)
      {
        assert t in References(v) <==> Refers(v, t);
      }
      assert References(v) == FirstNumbers(n);
    }
  }

  // ---- What is read ----

  lemma NamesOfNode(v: Json, name: string)
    ensures name in OperatorNames(v) <==>
              exists i :: 0 <= i < |Children(v)| && (name in OperatorName(KeyAt(v, i)) || name in OperatorNames(Children(v)[i]))
  {
    hide Children, KeyAt, OperatorName;
    if i :| 0 <= i < |Children(v)| && (name in OperatorName(KeyAt(v, i)) || name in OperatorNames(Children(v)[i])) {
      assert name in NamesAt(v, i);
    }
  }

  lemma OperatorNameIff(key: string, name: string)
    ensures name in OperatorName(key) <==> key == "$" + name && name != "param"
  {
    if key != "" && key[0] == '$' {
      assert key == "$" + key[1..];
    }
    assert ("$" + name)[1..] == name && "$param" == "$" + "param";
  }

  /** The operators named are the keys that start with a dollar sign, at any depth, but the parameter token. */
  lemma {:induction false} NamesIff(v: Json, name: string)
    ensures name in OperatorNames(v) <==> HasKey(v, "$" + name) && name != "param"
    decreases v
  {
    forall i | 0 <= i < |Children(v)|
      ensures name in OperatorNames(Children(v)[i]) <==> HasKey(Children(v)[i], "$" + name) && name != "param"
      ensures name in OperatorName(KeyAt(v, i)) <==> KeyAt(v, i) == "$" + name && name != "param"
    {
      NamesIff(Children(v)[i], name);
      OperatorNameIff(KeyAt(v, i), name);
    }
    NamesOfNode(v, name);
    KeysIff(v, "$" + name);
  }

  /** An accepted command is read as one statement on the collection it names: a listing of the catalog or
      a selection, with the operators it uses, and with the classifications and request it came with. */
  lemma CommandIsReadAs(v: Json, options: Options, op: P.Operation)
    requires ReadError(v, options).None? && ReadsAs(v, options, op)
    ensures op.kind == (if Holds(v, "kind", Str("introspect")) then "introspect" else "select") && op.statementCount == 1
    ensures op.protectedRequestRef == options.protectedRequestRef
    ensures multiset(op.parameterClassifications) == multiset(options.parameterClassifications)
    ensures exists d, c :: Holds(v, "database", Str(d)) && Holds(v, "collection", Str(c))
              && op.objects == [P.ObjectRef(d, c, if op.kind == "introspect" then "catalog" else "table")]
    ensures forall f :: f in op.functions <==>
              (HasKey(v, "$" + f) && f != "param") || (f == "explain" && Holds(v, "kind", Str("explain")))
  {
    hide PreflightFrom, TargetError, OptionsError, BodyError, References, FirstNumbers, At, SortBy, Less, OperatorNames, HasKey,
      Holds, ExactKeys, IsOperator;
    var keys := KeysOfCommand(v);
    assert "kind" in keys && "database" in keys && "collection" in keys;
    HoldsIff(v, keys, "kind", Str("introspect"));
    HoldsIff(v, keys, "kind", Str("explain"));
    HoldsIff(v, keys, "database", At(v, "database"));
    HoldsIff(v, keys, "collection", At(v, "collection"));
    SortMultiset(options.parameterClassifications, Whole);
    forall f
      ensures f in OperatorNames(v) <==> HasKey(v, "$" + f) && f != "param"
    {
      NamesIff(v, f);
    }
  }

  /** Within the structural bounds, a command that writes, or runs code on the server, is refused as such
      whatever else is wrong with it. */
  lemma WritesAreDenied(v: Json, options: Options, kind: string)
    requires v.Obj? && PreflightFrom(v, 0, 0).Ok? && At(v, "kind") == Str(kind)
    ensures kind in ["insert", "update", "delete", "replace", "findAndModify", "bulkWrite"] ==>
              ReadError(v, options) == Some("VES_MONGODB_WRITE_DENIED")
    ensures kind == "mapReduce" ==> ReadError(v, options) == Some("VES_MONGODB_SERVER_EXECUTION_DENIED")
  {
    hide PreflightFrom, At, OptionsError, BodyError, References, FirstNumbers;
    assert |"mapReduce"| == 9 && |"insert"| == 6 && |"update"| == 6 && |"delete"| == 6 && |"replace"| == 7;
    assert |"findAndModify"| == 13 && |"bulkWrite"| == 9 && "bulkWrite"[0] == 'b' && "mapReduce"[0] == 'm';
  }
}
