/** The shape of a MongoDB read command: the structural preflight and the
    recursive validator that collects the parameters a command refers to. */
module MongoDbCommand {
  import opened Results
  import opened Text

  datatype Json =
    | Null
    | Bool(b: bool)
    | Number(n: int)
    | Fraction(x: real)
    | Str(s: string)
    | Arr(items: seq<Json>)
    | Obj(fields: seq<Field>)

  datatype Field = Field(key: string, value: Json)

  /** What a generic traversal descends into. */
  function Children(v: Json): (cs: seq<Json>)
    ensures forall i :: 0 <= i < |cs| ==> cs[i] < v
  {
    match v
    case Arr(items) => items
    case Obj(fields) => seq(|fields|, i requires 0 <= i < |fields| => fields[i].value)
    case _ => []
  }

  /** A parameter token: an object whose only key is `$param`. */
  predicate IsToken(v: Json) { v.Obj? && |v.fields| == 1 && v.fields[0].key == "$param" }

  /** Every token operand a generic traversal finds, at any depth. */
  function References(v: Json): set<Json> {
    if IsToken(v) then {v.fields[0].value}
    else set i, t | 0 <= i < |Children(v)| && t in References(Children(v)[i]) :: t
  }

  predicate IsOperator(key: string) { key != "" && key[0] == '$' }

  function OperatorName(key: string): set<string> {
    if IsOperator(key) && key != "$param" then {key[1..]} else {}
  }

  function KeyAt(v: Json, i: nat): string { if v.Obj? && i < |v.fields| then v.fields[i].key else "" }

  /** The names of all operators and stages in a value, at any depth. */
  function OperatorNames(v: Json): set<string>
    decreases v, 1
  {
    set i, n | 0 <= i < |Children(v)| && n in NamesAt(v, i) :: n
  }

  function NamesAt(v: Json, i: nat): set<string>
    requires i < |Children(v)|
    decreases v, 0
  {
    OperatorName(KeyAt(v, i)) + OperatorNames(Children(v)[i])
  }

  // ---- Preflight ----

  predicate WriteStage(key: string) { key == "$out" || key == "$merge" }

  predicate ServerExecution(key: string) { key == "$where" || key == "$function" || key == "$accumulator" }

  predicate Denied(key: string) { WriteStage(key) || ServerExecution(key) }

  /** No denied key at any depth. */
  predicate Clean(v: Json) {
    forall i :: 0 <= i < |Children(v)| ==> !Denied(KeyAt(v, i)) && Clean(Children(v)[i])
  }

  predicate Narrow(v: Json) {
    (v.Arr? ==> |v.items| <= 128) && forall i :: 0 <= i < |Children(v)| ==> Narrow(Children(v)[i])
  }

  function Size(v: Json): nat { 1 + SizeFrom(v, 0) }

  function SizeFrom(v: Json, i: nat): nat
    decreases v, |Children(v)| - i
  {
    if i >= |Children(v)| then 0 else Size(Children(v)[i]) + SizeFrom(v, i + 1)
  }

  predicate Shallow(v: Json, levels: int) {
    levels >= 0 && forall i :: 0 <= i < |Children(v)| ==> Shallow(Children(v)[i], levels - 1)
  }

  const INVALID := "VES_MONGODB_COMMAND_INVALID"

  /** The node count after the traversal, or the first refusal. */
  function PreflightFrom(v: Json, depth: nat, nodes: nat): Result<nat>
    decreases v, 0
  {
    if depth > 16 || nodes + 1 > 512 || (v.Arr? && |v.items| > 128) then Err(INVALID)
    else PreflightChildren(v, 0, depth, nodes + 1)
  }

  function PreflightChildren(v: Json, i: nat, depth: nat, nodes: nat): Result<nat>
    decreases v, 0, |Children(v)| - i
  {
    if i >= |Children(v)| then Ok(nodes)
    else if WriteStage(KeyAt(v, i)) then Err("VES_MONGODB_WRITE_DENIED")
    else if ServerExecution(KeyAt(v, i)) then Err("VES_MONGODB_SERVER_EXECUTION_DENIED")
    else
      match PreflightFrom(Children(v)[i], depth + 1, nodes)
      case Err(code) => Err(code)
      case Ok(more) => PreflightChildren(v, i + 1, depth, more)
  }

  class Preflight {
    var nodes: nat

    constructor ()
      ensures nodes == 0
    {
      nodes := 0;
    }

    method Check(v: Json, depth: nat) returns (error: Option<string>)
      modifies this
      ensures error == match PreflightFrom(v, depth, old(nodes)) case Err(code) => Some(code) case Ok(_) => None
      ensures error.None? ==> PreflightFrom(v, depth, old(nodes)) == Ok(nodes)
      decreases v
    {
      nodes := nodes + 1;
      if depth > 16 || nodes > 512 || (v.Arr? && |v.items| > 128) {
        return Some(INVALID);
      }
      ghost var start := nodes;
      for i := 0 to |Children(v)|
        invariant PreflightChildren(v, 0, depth, start) == PreflightChildren(v, i, depth, nodes)
      {
        if WriteStage(KeyAt(v, i)) {
          return Some("VES_MONGODB_WRITE_DENIED");
        }
        if ServerExecution(KeyAt(v, i)) {
          return Some("VES_MONGODB_SERVER_EXECUTION_DENIED");
        }
        error := Check(Children(v)[i], depth + 1);
        if error.Some? {
          return;
        }
      }
      error := None;
    }
  }

  /** The preflight passes exactly the commands within all structural bounds that contain no denied key
      at any depth, and counts every node once. */
  lemma {:induction false} PreflightExact(v: Json, depth: nat, nodes: nat)
    ensures PreflightFrom(v, depth, nodes).Ok? <==>
              Shallow(v, 16 - depth) && nodes + Size(v) <= 512 && Narrow(v) && Clean(v)
    ensures PreflightFrom(v, depth, nodes).Ok? ==> PreflightFrom(v, depth, nodes) == Ok(nodes + Size(v))
    decreases v, 0
  {
    hide WriteStage, ServerExecution, KeyAt;
    PreflightChildrenExact(v, 0, depth, nodes + 1);
  }

  lemma {:induction false} PreflightChildrenExact(v: Json, i: nat, depth: nat, nodes: nat)
    requires i <= |Children(v)|
    ensures PreflightChildren(v, i, depth, nodes).Ok? <==>
              && (i == |Children(v)| || nodes + SizeFrom(v, i) <= 512)
              && forall j :: i <= j < |Children(v)| ==>
                   Shallow(Children(v)[j], 15 - depth) && Narrow(Children(v)[j]) && !Denied(KeyAt(v, j)) && Clean(Children(v)[j])
    ensures PreflightChildren(v, i, depth, nodes).Ok? ==>
              PreflightChildren(v, i, depth, nodes) == Ok(nodes + SizeFrom(v, i))
    decreases v, 0, |Children(v)| - i
  {
    hide WriteStage, ServerExecution, KeyAt, Children, Shallow, Narrow, Clean, Size;
    if i < |Children(v)| {
      var child := Children(v)[i];
      PreflightExact(child, depth + 1, nodes);
      if PreflightFrom(child, depth + 1, nodes).Ok? {
        PreflightChildrenExact(v, i + 1, depth, nodes + Size(child));
      }
    }
  }

  // ---- The validator ----

  const COMPARISON_OPERATORS: seq<string> := ["$eq", "$ne", "$gt", "$gte", "$lt", "$lte", "$in"]

  predicate IsFieldPart(p: string) {
    p == "_id" || (p != "" && IsLower(p[0]) && Every(p, c => IsLower(c) || IsDigit(c) || c == '_'))
  }

  predicate IsField(s: string) { forall p :: p in Split(s, '.') ==> IsFieldPart(p) }

  function ParameterError(v: Json): Option<string> {
    if !IsToken(v) || !v.fields[0].value.Number? || v.fields[0].value.n < 0 || v.fields[0].value.n > 63 then
      Some("VES_MONGODB_LITERAL_DENIED")
    else None
  }

  function ConditionError(operator: string, operand: Json): Option<string> {
    if operator == "$exists" then if operand.Bool? then None else Some("VES_MONGODB_LITERAL_DENIED")
    else if operator !in COMPARISON_OPERATORS then Some("VES_MONGODB_OPERATOR_DENIED")
    else ParameterError(operand)
  }

  function ConditionsError(condition: Json, i: nat): Option<string>
    requires condition.Obj?
    decreases |condition.fields| - i
  {
    if i >= |condition.fields| then None
    else
      var error := ConditionError(condition.fields[i].key, condition.fields[i].value);
      if error.Some? then error else ConditionsError(condition, i + 1)
  }

  function FieldError(field: string, condition: Json): Option<string> {
    if !IsField(field) then Some("VES_MONGODB_FIELD_DENIED")
    else if !condition.Obj? then Some("VES_MONGODB_LITERAL_DENIED")
    else if condition.fields == [] || |condition.fields| > 4 then Some(INVALID)
    else ConditionsError(condition, 0)
  }

  function LogicalError(operator: string, operands: Json, depth: nat): Option<string>
    decreases operands, 1
  {
    if operator != "$and" && operator != "$or" then Some("VES_MONGODB_OPERATOR_DENIED")
    else if !operands.Arr? || operands.items == [] || |operands.items| > 32 then Some(INVALID)
    else OperandsError(operands, 0, depth)
  }

  function OperandsError(operands: Json, i: nat, depth: nat): Option<string>
    requires operands.Arr?
    decreases operands, 0, |operands.items| - i
  {
    if i >= |operands.items| then None
    else
      var error := FilterError(operands.items[i], depth + 1);
      if error.Some? then error else OperandsError(operands, i + 1, depth)
  }

  function FilterError(v: Json, depth: nat): Option<string>
    decreases v, 1
  {
    if depth > 12 || !v.Obj? then Some(INVALID) else FilterFieldsError(v, 0, depth)
  }

  function FilterFieldsError(v: Json, i: nat, depth: nat): Option<string>
    requires v.Obj?
    decreases v, 0, |v.fields| - i
  {
    if i >= |v.fields| then None
    else
      var f := v.fields[i];
      var error := if IsOperator(f.key) then LogicalError(f.key, f.value, depth) else FieldError(f.key, f.value);
      if error.Some? then error else FilterFieldsError(v, i + 1, depth)
  }

  function FlagsError(v: Json, maximum: nat, allowed: set<int>): Option<string> {
    if !v.Obj? || v.fields == [] || |v.fields| > maximum
      || exists f :: f in v.fields && (!IsField(f.key) || !f.value.Number? || f.value.n !in allowed)
    then Some(INVALID)
    else None
  }

  function ProjectionError(v: Json): Option<string> { FlagsError(v, 128, {0, 1}) }

  function SortError(v: Json): Option<string> { FlagsError(v, 32, {1, -1}) }

  function StageError(stage: Json): Option<string> {
    if !stage.Obj? || |stage.fields| != 1 then Some(INVALID)
    else
      var name, body := stage.fields[0].key, stage.fields[0].value;
      if name == "$match" then FilterError(body, 0)
      else if name == "$project" then ProjectionError(body)
      else if name == "$sort" then SortError(body)
      else if name == "$limit" then if body.Number? && 1 <= body.n <= 10000 then None else Some(INVALID)
      else Some("VES_MONGODB_STAGE_DENIED")
  }

  function StagesError(v: Json, i: nat): Option<string>
    requires v.Arr?
    decreases |v.items| - i
  {
    if i >= |v.items| then None
    else var error := StageError(v.items[i]); if error.Some? then error else StagesError(v, i + 1)
  }

  function PipelineError(v: Json): Option<string> {
    if !v.Arr? || v.items == [] || |v.items| > 32 then Some(INVALID) else StagesError(v, 0)
  }

  // ---- Partial traversals, for the validator's loops ----

  function ReferencesUpTo(v: Json, i: nat): set<Json>
    requires i <= |Children(v)|
  {
    set j, t | 0 <= j < i && t in References(Children(v)[j]) :: t
  }

  function NamesUpTo(v: Json, i: nat): set<string>
    requires i <= |Children(v)|
  {
    set j, n | 0 <= j < i && n in NamesAt(v, j) :: n
  }

  lemma UpToAll(v: Json)
    ensures !IsToken(v) ==> ReferencesUpTo(v, |Children(v)|) == References(v)
    ensures NamesUpTo(v, |Children(v)|) == OperatorNames(v)
  {
    hide NamesAt, Children;
  }

  lemma UpToNext(v: Json, i: nat)
    requires i < |Children(v)|
    ensures ReferencesUpTo(v, i + 1) == ReferencesUpTo(v, i) + References(Children(v)[i])
    ensures NamesUpTo(v, i + 1) == NamesUpTo(v, i) + NamesAt(v, i)
  {
    hide References, NamesAt, Children;
    assert NamesUpTo(v, i + 1) == NamesUpTo(v, i) + NamesAt(v, i);
  }

  lemma UpToNone(v: Json)
    ensures ReferencesUpTo(v, 0) == {} && NamesUpTo(v, 0) == {}
  {
  }

  /** Scalars hold nothing, a valid token exactly its number, and flags no tokens. */
  lemma ScalarHoldsNothing(v: Json)
    requires !v.Arr? && !v.Obj?
    ensures References(v) == {} && OperatorNames(v) == {}
  {
  }

  lemma TokenHoldsItsNumber(v: Json)
    requires ParameterError(v) == None
    ensures References(v) == {v.fields[0].value} && OperatorNames(v) == {}
  {
    ScalarHoldsNothing(v.fields[0].value);
    assert Children(v) == [v.fields[0].value];
    assert NamesUpTo(v, 1) == {} by {
      UpToNext(v, 0);
      UpToNone(v);
    }
    UpToAll(v);
  }

  lemma FieldsAreNotOperators(s: string)
    requires IsField(s)
    ensures !IsOperator(s) && OperatorName(s) == {}
  {
    var parts := Split(s, '.');
    assert parts[0] in parts && IsFieldPart(parts[0]);
    assert s != "" && s[0] != '.' ==> parts[0] == [s[0]] + Split(s[1..], '.')[0];
    assert s != "" && s[0] != '.' ==> s[0] == parts[0][0];
    assert parts[0][0] != '$' by {
      assert "_id"[0] == '_';
    }
  }

  lemma {:induction false} FlagsHoldNothing(v: Json, maximum: nat, allowed: set<int>)
    requires FlagsError(v, maximum, allowed) == None
    ensures References(v) == {} && OperatorNames(v) == {}
  {
    hide IsField, IsOperator, OperatorName;
    assert v.fields[0] in v.fields;
    FieldsAreNotOperators(v.fields[0].key);
    NotParam(v.fields[0].key);
    forall i | 0 <= i < |Children(v)|
      ensures References(Children(v)[i]) == {} && OperatorNames(Children(v)[i]) == {} && OperatorName(KeyAt(v, i)) == {}
    {
      assert v.fields[i] in v.fields;
      ScalarHoldsNothing(v.fields[i].value);
      FieldsAreNotOperators(v.fields[i].key);
    }
    HoldsNothing(v);
  }

  lemma NotParam(key: string)
    requires !IsOperator(key)
    ensures key != "$param"
  {
  }

  lemma HoldsNothing(v: Json)
    requires !IsToken(v)
    requires forall i :: 0 <= i < |Children(v)| ==>
               References(Children(v)[i]) == {} && OperatorNames(Children(v)[i]) == {} && OperatorName(KeyAt(v, i)) == {}
    ensures References(v) == {} && OperatorNames(v) == {}
  {
    hide Children, KeyAt, OperatorName;
  }

  /** The shared state of one validation. */
  class Validator {
    var parameters: set<int>
    var functions: set<string>

    constructor ()
      ensures parameters == {} && functions == {}
    {
      parameters, functions := {}, {};
    }

    ghost function Collected(): set<Json>
      reads this
    {
      set n | n in parameters :: Number(n)
    }

    /** What a successful validation of `v` adds: exactly the operands and operator names that a generic
        traversal of `v` finds. */
    twostate predicate Gains(v: Json)
      reads this
    {
      Collected() == old(Collected()) + References(v) && functions == old(functions) + OperatorNames(v)
    }

    method Parameter(v: Json) returns (error: Option<string>)
      modifies this
      ensures error == ParameterError(v)
      ensures error.None? ==> Gains(v)
    {
      if !IsToken(v) || !v.fields[0].value.Number? || v.fields[0].value.n < 0 || v.fields[0].value.n > 63 {
        return Some("VES_MONGODB_LITERAL_DENIED");
      }
      TokenHoldsItsNumber(v);
      parameters := parameters + {v.fields[0].value.n};
      error := None;
    }

    method ConditionOperator(operator: string, operand: Json) returns (error: Option<string>)
      modifies this
      ensures error == ConditionError(operator, operand)
      ensures error.None? ==> Gains(operand)
    {
      if operator == "$exists" {
        if !operand.Bool? {
          return Some("VES_MONGODB_LITERAL_DENIED");
        }
        ScalarHoldsNothing(operand);
        return None;
      }
      if operator !in COMPARISON_OPERATORS {
        return Some("VES_MONGODB_OPERATOR_DENIED");
      }
      error := Parameter(operand);
    }

    method FieldFilter(field: string, condition: Json) returns (error: Option<string>)
      modifies this
      ensures error == FieldError(field, condition)
      ensures error.None? ==> Gains(condition)
    {
      hide IsField, References, OperatorNames, ConditionError, ReferencesUpTo, NamesUpTo;
      if !IsField(field) {
        return Some("VES_MONGODB_FIELD_DENIED");
      }
      if !condition.Obj? {
        return Some("VES_MONGODB_LITERAL_DENIED");
      }
      if condition.fields == [] || |condition.fields| > 4 {
        return Some(INVALID);
      }
      UpToNone(condition);
      for i := 0 to |condition.fields|
        invariant ConditionsError(condition, 0) == ConditionsError(condition, i)
        invariant Collected() == old(Collected()) + ReferencesUpTo(condition, i)
        invariant functions == old(functions) + NamesUpTo(condition, i)
        invariant i > 0 ==> !IsToken(condition)
      {
        var operator, operand := condition.fields[i].key, condition.fields[i].value;
        error := ConditionOperator(operator, operand);
        if error.Some? {
          return;
        }
        ConditionOperators(operator, operand);
        UpToNext(condition, i);
        functions := functions + {operator[1..]};
      }
      UpToAll(condition);
      error := None;
    }

    method LogicalFilter(operator: string, operands: Json, depth: nat) returns (error: Option<string>)
      modifies this
      ensures error == LogicalError(operator, operands, depth)
      ensures error.None? ==>
                && Collected() == old(Collected()) + References(operands)
                && functions == old(functions) + OperatorName(operator) + OperatorNames(operands)
      decreases operands, 1
    {
      hide References, OperatorNames, ReferencesUpTo, NamesUpTo, FilterError;
      if operator != "$and" && operator != "$or" {
        return Some("VES_MONGODB_OPERATOR_DENIED");
      }
      if !operands.Arr? || operands.items == [] || |operands.items| > 32 {
        return Some(INVALID);
      }
      functions := functions + {operator[1..]};
      assert OperatorName(operator) == {operator[1..]};
      UpToNone(operands);
      for i := 0 to |operands.items|
        invariant OperandsError(operands, 0, depth) == OperandsError(operands, i, depth)
        invariant Collected() == old(Collected()) + ReferencesUpTo(operands, i)
        invariant functions == old(functions) + OperatorName(operator) + NamesUpTo(operands, i)
      {
        error := Filter(operands.items[i], depth + 1);
        if error.Some? {
          return;
        }
        assert OperatorName(KeyAt(operands, i)) == {};
        UpToNext(operands, i);
      }
      UpToAll(operands);
      error := None;
    }

    method Filter(v: Json, depth: nat) returns (error: Option<string>)
      modifies this
      ensures error == FilterError(v, depth)
      ensures error.None? ==> Gains(v)
      decreases v, 1
    {
      hide References, OperatorNames, ReferencesUpTo, NamesUpTo, LogicalError, FieldError, OperatorName;
      if depth > 12 || !v.Obj? {
        return Some(INVALID);
      }
      UpToNone(v);
      for i := 0 to |v.fields|
        invariant FilterFieldsError(v, 0, depth) == FilterFieldsError(v, i, depth)
        invariant Collected() == old(Collected()) + ReferencesUpTo(v, i)
        invariant functions == old(functions) + NamesUpTo(v, i)
        invariant i > 0 ==> !IsToken(v)
      {
        var key, value := v.fields[i].key, v.fields[i].value;
        if IsOperator(key) {
          error := LogicalFilter(key, value, depth);
        } else {
          error := FieldFilter(key, value);
        }
        if error.Some? {
          return;
        }
        FilterKeys(key, value, depth);
        UpToNext(v, i);
      }
      UpToAll(v);
      error := None;
    }

    method Stage(stage: Json) returns (error: Option<string>)
      modifies this
      ensures error == StageError(stage)
      ensures error.None? ==> Gains(stage)
    {
      hide References, OperatorNames, ReferencesUpTo, NamesUpTo, FilterError, FlagsError;
      if !stage.Obj? || |stage.fields| != 1 {
        return Some(INVALID);
      }
      var name, body := stage.fields[0].key, stage.fields[0].value;
      error := None;
      if name == "$match" {
        error := Filter(body, 0);
      } else if name == "$project" {
        error := ProjectionError(body);
      } else if name == "$sort" {
        error := SortError(body);
      } else if name == "$limit" {
        if !body.Number? || body.n < 1 || body.n > 10000 {
          error := Some(INVALID);
        }
      } else {
        error := Some("VES_MONGODB_STAGE_DENIED");
      }
      if error.Some? {
        return;
      }
      FlagStages(stage);
      StageHolds(stage);
      functions := functions + {name[1..]};
    }

    method Pipeline(v: Json) returns (error: Option<string>)
      modifies this
      ensures error == PipelineError(v)
      ensures error.None? ==> Gains(v)
    {
      hide References, OperatorNames, ReferencesUpTo, NamesUpTo, StageError;
      if !v.Arr? || v.items == [] || |v.items| > 32 {
        return Some(INVALID);
      }
      UpToNone(v);
      for i := 0 to |v.items|
        invariant StagesError(v, 0) == StagesError(v, i)
        invariant Collected() == old(Collected()) + ReferencesUpTo(v, i)
        invariant functions == old(functions) + NamesUpTo(v, i)
      {
        error := Stage(v.items[i]);
        if error.Some? {
          return;
        }
        assert OperatorName(KeyAt(v, i)) == {};
        UpToNext(v, i);
      }
      UpToAll(v);
      error := None;
    }
  }

  lemma ConditionOperators(operator: string, operand: Json)
    requires ConditionError(operator, operand) == None
    ensures operator != "$param" && operator != "" && OperatorName(operator) == {operator[1..]}
  {
  }

  lemma FilterKeys(key: string, value: Json, depth: nat)
    requires if IsOperator(key) then LogicalError(key, value, depth) == None else FieldError(key, value) == None
    ensures key != "$param"
    ensures !IsOperator(key) ==> OperatorName(key) == {}
  {
  }

  lemma FlagStages(stage: Json)
    requires StageError(stage) == None
    ensures stage.fields[0].key != "$match" ==>
              References(stage.fields[0].value) == {} && OperatorNames(stage.fields[0].value) == {}
  {
    hide FilterError, FlagsError, References, OperatorNames;
    var name, body := stage.fields[0].key, stage.fields[0].value;
    if name == "$project" {
      FlagsHoldNothing(body, 128, {0, 1});
    } else if name == "$sort" {
      FlagsHoldNothing(body, 32, {1, -1});
    } else if name == "$limit" {
      ScalarHoldsNothing(body);
    }
  }

  lemma StageHolds(stage: Json)
    requires StageError(stage) == None
    ensures References(stage) == References(stage.fields[0].value)
    ensures OperatorNames(stage) == {stage.fields[0].key[1..]} + OperatorNames(stage.fields[0].value)
  {
    hide FilterError, FlagsError, References, OperatorNames, ReferencesUpTo, NamesUpTo;
    assert Children(stage) == [stage.fields[0].value];
    UpToNone(stage);
    UpToNext(stage, 0);
    UpToAll(stage);
  }
}
