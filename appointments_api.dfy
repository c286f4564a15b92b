/**
 * The query assembly of the appointments HTTP function: the WHERE clause of the
 * listing (GET), the SET list of an update (PUT) and the required-field check of a
 * create (POST). Each builder collects SQL fragments and their parameters side by
 * side, numbering the positional placeholders `$1, $2, ...` with a running index.
 * The database itself is an input: the row count an UPDATE reports.
 */
module AppointmentsApi {
  import opened Wrappers
  import opened Text

  // ---------------------------------------------------------------- placeholders and assignments

  /** The positional parameter `$i` of a parametrised query. */
  function Placeholder(i: nat): string
  {
    "$" + NatToString(i)
  }

  /** The digits after the `$` read back as the parameter's position. */
  lemma PlaceholderNumber(i: nat)
    ensures |Placeholder(i)| >= 2 && Placeholder(i)[0] == '$'
    ensures AllDigits(Placeholder(i)[1..]) && DigitsValue(Placeholder(i)[1..]) == i
  {
    assert Placeholder(i)[1..] == NatToString(i);
  }

  /** Two positions never share a placeholder. */
  lemma PlaceholdersDistinct(i: nat, j: nat)
    ensures Placeholder(i) == Placeholder(j) <==> i == j
  {
    if Placeholder(i) == Placeholder(j) {
      PlaceholderNumber(i);
      PlaceholderNumber(j);
    }
  }

  /** A column and the value it is compared with or set to. */
  datatype Field = Field(column: string, value: string)

  /** `column = $k` for each field, numbered from `first` on. */
  function Assignments(fields: seq<Field>, first: nat): seq<string>
  {
    if fields == [] then []
    else [fields[0].column + " = " + Placeholder(first)] + Assignments(fields[1..], first + 1)
  }

  /** The parameters in field order. */
  function Values(fields: seq<Field>): (r: seq<string>)
    ensures |r| == |fields| && forall k :: 0 <= k < |fields| ==> r[k] == fields[k].value
  {
    if fields == [] then [] else [fields[0].value] + Values(fields[1..])
  }

  /** Fragment `k` names field `k` and placeholder `first + k`: the numbering has no gap and no repeat. */
  lemma {:induction false} AssignmentsNumbered(fields: seq<Field>, first: nat)
    ensures var a := Assignments(fields, first);
      |a| == |fields| && forall k :: 0 <= k < |fields| ==> a[k] == fields[k].column + " = " + Placeholder(first + k)
    decreases |fields|
  {
    if fields != [] {
      AssignmentsNumbered(fields[1..], first + 1);
      var a, rest := Assignments(fields, first), Assignments(fields[1..], first + 1);
      forall k | 0 < k < |fields| ensures a[k] == fields[k].column + " = " + Placeholder(first + k) {
        assert a[k] == rest[k - 1];
      }
    }
  }

  /** Appending a field appends its fragment, numbered after the ones before it. */
  lemma {:induction false} AssignmentsAppend(fields: seq<Field>, f: Field, first: nat)
    ensures Assignments(fields + [f], first) == Assignments(fields, first) + [f.column + " = " + Placeholder(first + |fields|)]
    decreases |fields|
  {
    if fields != [] {
      assert (fields + [f])[1..] == fields[1..] + [f];
      AssignmentsAppend(fields[1..], f, first + 1);
    } else {
      assert fields + [f] == [f];
    }
  }

  lemma ValuesAppend(fields: seq<Field>, f: Field)
    ensures Values(fields + [f]) == Values(fields) + [f.value]
  {
  }

  /** The fragments, the parameters and the running index of a builder agree with the fields pushed so far. */
  predicate Collected(fragments: seq<string>, params: seq<string>, paramIndex: nat, fields: seq<Field>)
  {
    fragments == Assignments(fields, 1) && params == Values(fields) && paramIndex == |fields| + 1
  }

  /** One push of a fragment `column = $paramIndex` and its value, with the index moved on. */
  lemma PushStep(fragments: seq<string>, params: seq<string>, paramIndex: nat, fields: seq<Field>, f: Field, head: string)
    requires Collected(fragments, params, paramIndex, fields) && head == f.column + " = "
    ensures Collected(fragments + [head + Placeholder(paramIndex)], params + [f.value], paramIndex + 1, fields + [f])
  {
    AssignmentsAppend(fields, f, 1);
    ValuesAppend(fields, f);
  }

  /** Columns come in strictly increasing rank. */
  predicate Ordered(f: seq<Field>, rank: string -> nat)
  {
    forall i, j :: 0 <= i < j < |f| ==> rank(f[i].column) < rank(f[j].column)
  }

  predicate Below(f: seq<Field>, rank: string -> nat, r: nat)
  {
    forall i :: 0 <= i < |f| ==> rank(f[i].column) < r
  }

  /** At most one field, of rank `r`. */
  predicate OneOfRank(part: seq<Field>, rank: string -> nat, r: nat)
  {
    |part| <= 1 && forall i :: 0 <= i < |part| ==> rank(part[i].column) == r
  }

  /** Appending at most one field of rank `r` after fields of lower rank keeps the order. */
  lemma OrderedExtend(a: seq<Field>, part: seq<Field>, rank: string -> nat, r: nat)
    requires Ordered(a, rank) && Below(a, rank, r)
    requires OneOfRank(part, rank, r)
    ensures Ordered(a + part, rank) && Below(a + part, rank, r + 1)
  {
    var s := a + part;
    forall i, j | 0 <= i < j < |s| ensures rank(s[i].column) < rank(s[j].column) {
      assert s[i] == a[i];
      if j < |a| {
        assert s[j] == a[j];
      } else {
        assert s[j] == part[j - |a|];
      }
    }
  }

  // ---------------------------------------------------------------- GET: buildWhereClause

  /** JavaScript truthiness of a query-string value: present and not empty. */
  predicate Truthy(query: map<string, string>, key: string)
  {
    key in query && query[key] != ""
  }

  /** The upcoming filter is on only for the exact value `true`. */
  predicate Upcoming(query: map<string, string>)
  {
    "upcoming" in query && query["upcoming"] == "true"
  }

  /** The appointments still ahead of the database's current date and time. */
  const UpcomingCondition: string := "(date > CURRENT_DATE OR (date = CURRENT_DATE AND time_slot > CURRENT_TIME))"

  function FieldIf(query: map<string, string>, key: string, column: string): seq<Field>
  {
    if Truthy(query, key) then [Field(column, query[key])] else []
  }

  /** The parametrised filters of a listing, in the order department, date, phone. */
  function Filters(query: map<string, string>): seq<Field>
  {
    FieldIf(query, "department", "department") + FieldIf(query, "date", "date") + FieldIf(query, "phone", "patient_phone")
  }

  function WhereConditions(query: map<string, string>): seq<string>
  {
    Assignments(Filters(query), 1) + (if Upcoming(query) then [UpcomingCondition] else [])
  }

  function WhereParams(query: map<string, string>): seq<string>
  {
    Values(Filters(query))
  }

  function ClauseOf(conditions: seq<string>, keyword: string, sep: string): string
  {
    if |conditions| > 0 then keyword + Join(conditions, sep) else ""
  }

  function WhereClause(query: map<string, string>): string
  {
    ClauseOf(WhereConditions(query), "WHERE ", " AND ")
  }

  /** `buildWhereClause`: the conditions and their parameters, pushed one filter at a time. */
  method BuildWhereClause(query: map<string, string>) returns (clause: string, params: seq<string>)
    ensures clause == WhereClause(query) && params == WhereParams(query)
  {
    var conditions: seq<string> := [];
    params := [];
    var paramIndex: nat := 1;
    ghost var fields: seq<Field> := [];

    if Truthy(query, "department") {
      PushStep(conditions, params, paramIndex, fields, Field("department", query["department"]), "department = ");
      conditions := conditions + ["department = " + Placeholder(paramIndex)];
      paramIndex := paramIndex + 1;
      params := params + [query["department"]];
      fields := fields + [Field("department", query["department"])];
    }
    assert Collected(conditions, params, paramIndex, fields);
    assert fields == FieldIf(query, "department", "department");

    if Truthy(query, "date") {
      PushStep(conditions, params, paramIndex, fields, Field("date", query["date"]), "date = ");
      conditions := conditions + ["date = " + Placeholder(paramIndex)];
      paramIndex := paramIndex + 1;
      params := params + [query["date"]];
      fields := fields + [Field("date", query["date"])];
    }
    assert Collected(conditions, params, paramIndex, fields);
    assert fields == FieldIf(query, "department", "department") + FieldIf(query, "date", "date");

    if Truthy(query, "phone") {
      PushStep(conditions, params, paramIndex, fields, Field("patient_phone", query["phone"]), "patient_phone = ");
      conditions := conditions + ["patient_phone = " + Placeholder(paramIndex)];
      paramIndex := paramIndex + 1;
      params := params + [query["phone"]];
      fields := fields + [Field("patient_phone", query["phone"])];
    }
    assert Collected(conditions, params, paramIndex, fields);
    assert fields == Filters(query);

    if Upcoming(query) {
      conditions := conditions + [UpcomingCondition];
    }
    assert conditions == WhereConditions(query);

    clause := if |conditions| > 0 then "WHERE " + Join(conditions, " AND ") else "";
  }

  /** Where each filter column sits in the fixed order. */
  function Rank(column: string): nat
  {
    if column == "department" then 0 else if column == "date" then 1 else 2
  }

  /** A filter is applied exactly when its query value is truthy, and then with that value. */
  lemma FilterChosen(query: map<string, string>, key: string, column: string)
    requires (key == "department" && column == "department") || (key == "date" && column == "date")
      || (key == "phone" && column == "patient_phone")
    ensures Truthy(query, key) ==> Field(column, query[key]) in Filters(query)
    ensures !Truthy(query, key) ==> forall i :: 0 <= i < |Filters(query)| ==> Filters(query)[i].column != column
  {
  }

  lemma FieldIfOfRank(query: map<string, string>, key: string, column: string, rank: string -> nat, r: nat)
    requires rank(column) == r
    ensures OneOfRank(FieldIf(query, key, column), rank, r)
  {
  }

  /** The filters keep the fixed order department, date, phone. */
  lemma FiltersInOrder(query: map<string, string>)
    ensures Ordered(Filters(query), Rank)
  {
    var a, b, c := FieldIf(query, "department", "department"), FieldIf(query, "date", "date"), FieldIf(query, "phone", "patient_phone");
    FieldIfOfRank(query, "department", "department", Rank, 0);
    FieldIfOfRank(query, "date", "date", Rank, 1);
    FieldIfOfRank(query, "phone", "patient_phone", Rank, 2);
    OrderedExtend([], a, Rank, 0);
    assert [] + a == a;
    OrderedExtend(a, b, Rank, 1);
    OrderedExtend(a + b, c, Rank, 2);
  }

  /**
   * The parameters are the filter values in order, condition `k` compares filter `k`'s column
   * with placeholder `$(k+1)`, and the upcoming condition, when present, comes last and takes no parameter.
   */
  lemma WherePlaceholders(query: map<string, string>)
    ensures var f, c, p := Filters(query), WhereConditions(query), WhereParams(query);
      |p| == |f| && |c| == |f| + (if Upcoming(query) then 1 else 0) &&
      (forall k :: 0 <= k < |f| ==> c[k] == f[k].column + " = " + Placeholder(k + 1) && p[k] == f[k].value) &&
      (Upcoming(query) ==> c[|c| - 1] == UpcomingCondition)
  {
    AssignmentsNumbered(Filters(query), 1);
  }

  /** The upcoming flag never changes the parameters. */
  lemma UpcomingTakesNoParameter(query: map<string, string>, v: string)
    ensures WhereParams(query["upcoming" := v]) == WhereParams(query)
  {
    var q := query["upcoming" := v];
    assert FieldIf(q, "department", "department") == FieldIf(query, "department", "department");
    assert FieldIf(q, "date", "date") == FieldIf(query, "date", "date");
    assert FieldIf(q, "phone", "patient_phone") == FieldIf(query, "phone", "patient_phone");
  }

  /** No filter gives no clause at all; any filter gives a clause led by `WHERE `. */
  lemma WhereClauseShape(query: map<string, string>)
    ensures WhereClause(query) == "" <==>
      !Truthy(query, "department") && !Truthy(query, "date") && !Truthy(query, "phone") && !Upcoming(query)
    ensures WhereClause(query) != "" ==> IsPrefix("WHERE ", WhereClause(query))
  {
    var c := WhereConditions(query);
    AssignmentsNumbered(Filters(query), 1);
    if |c| > 0 {
      assert WhereClause(query)[..6] == "WHERE ";
    }
  }

  /** An example: a listing filtered by date alone; `WherePlaceholders` and `FiltersInOrder` state the general facts. */
  lemma DateOnlyListing(date: string)
    requires date != ""
    ensures WhereClause(map["date" := date]) == "WHERE date = $1"
    ensures WhereParams(map["date" := date]) == [date]
  {
    var q := map["date" := date];
    assert "upcoming" !in q && "department" !in q && "phone" !in q;
    assert Filters(q) == [Field("date", date)];
    assert [Field("date", date)][1..] == [];
    DateCondition(date);
    assert WhereConditions(q) == ["date = $1"];
    DateClause();
  }

  /** An example: the single date filter's condition text. */
  lemma DateCondition(v: string)
    ensures Assignments([Field("date", v)], 1) == ["date = $1"]
  {
    assert [Field("date", v)][1..] == [];
    assert Placeholder(1) == "$1" by {
      assert NatToString(1) == "1";
    }
    assert "date" + " = " + "$1" == "date = $1";
  }

  lemma DateClause()
    ensures ClauseOf(["date = $1"], "WHERE ", " AND ") == "WHERE date = $1"
  {
  }

  // ---------------------------------------------------------------- PUT: the update builder

  /** The body of an update; `None` is a key the JSON body does not have. */
  datatype UpdateRequest = UpdateRequest(
    date: Option<string>, timeSlot: Option<string>, patientName: Option<string>,
    department: Option<string>, patientPhone: Option<string>)

  /** What the PUT handler sends to the database, or that it refuses (status 400) before any query. */
  datatype UpdatePlan = NoFieldsToUpdate | RunUpdate(sql: string, params: seq<string>)

  function Defined(o: Option<string>, column: string): seq<Field>
  {
    if o.Some? then [Field(column, o.value)] else []
  }

  /** The fields to set, in the order date, time slot, name, department, phone. */
  function UpdateFields(data: UpdateRequest): seq<Field>
  {
    Defined(data.date, "date") + Defined(data.timeSlot, "time_slot") + Defined(data.patientName, "patient_name")
      + Defined(data.department, "department") + Defined(data.patientPhone, "patient_phone")
  }

  function UpdatePlanOf(data: UpdateRequest, id: string): UpdatePlan
  {
    var fields := UpdateFields(data);
    if fields == [] then NoFieldsToUpdate
    else
      RunUpdate("UPDATE appointments SET " + Join(Assignments(fields, 1), ", ") + " WHERE id = " + Placeholder(|fields| + 1),
                Values(fields) + [id])
  }

  /** One block of appointments.ts lines 184-203: a defined field pushes `column = $paramIndex` and its value, and moves the index on. */
  method PushIfDefined(updateFields: seq<string>, params: seq<string>, paramIndex: nat, ghost fields: seq<Field>,
                       value: Option<string>, column: string, head: string)
    returns (updateFields': seq<string>, params': seq<string>, paramIndex': nat)
    requires Collected(updateFields, params, paramIndex, fields) && head == column + " = "
    ensures Collected(updateFields', params', paramIndex', fields + Defined(value, column))
  {
    updateFields', params', paramIndex' := updateFields, params, paramIndex;
    if value.Some? {
      PushStep(updateFields, params, paramIndex, fields, Field(column, value.value), head);
      updateFields' := updateFields + [head + Placeholder(paramIndex)];
      paramIndex' := paramIndex + 1;
      params' := params + [value.value];
    } else {
      assert fields + Defined(value, column) == fields;
    }
  }

  /** appointments.ts lines 180-214, the PUT branch: the SET list, its parameters and the id placed last. */
  method BuildUpdate(updateData: UpdateRequest, id: string) returns (plan: UpdatePlan)
    ensures plan == UpdatePlanOf(updateData, id)
  {
    var updateFields: seq<string> := [];
    var params: seq<string> := [];
    var paramIndex: nat := 1;
    ghost var fields := Defined(updateData.date, "date");

    updateFields, params, paramIndex := PushIfDefined(updateFields, params, paramIndex, [], updateData.date, "date", "date = ");
    assert [] + fields == fields;
    updateFields, params, paramIndex :=
      PushIfDefined(updateFields, params, paramIndex, fields, updateData.timeSlot, "time_slot", "time_slot = ");
    fields := fields + Defined(updateData.timeSlot, "time_slot");
    updateFields, params, paramIndex :=
      PushIfDefined(updateFields, params, paramIndex, fields, updateData.patientName, "patient_name", "patient_name = ");
    fields := fields + Defined(updateData.patientName, "patient_name");
    updateFields, params, paramIndex :=
      PushIfDefined(updateFields, params, paramIndex, fields, updateData.department, "department", "department = ");
    fields := fields + Defined(updateData.department, "department");
    updateFields, params, paramIndex :=
      PushIfDefined(updateFields, params, paramIndex, fields, updateData.patientPhone, "patient_phone", "patient_phone = ");
    fields := fields + Defined(updateData.patientPhone, "patient_phone");
    assert fields == UpdateFields(updateData);

    if |updateFields| == 0 {
      return NoFieldsToUpdate;
    }

    params := params + [id];
    var query := "UPDATE appointments SET " + Join(updateFields, ", ") + " WHERE id = " + Placeholder(paramIndex);
    plan := RunUpdate(query, params);
  }

  /** An update is refused exactly when the body defines none of the five fields. */
  lemma NothingToUpdate(data: UpdateRequest, id: string)
    ensures UpdatePlanOf(data, id) == NoFieldsToUpdate <==>
      data.date.None? && data.timeSlot.None? && data.patientName.None? && data.department.None? && data.patientPhone.None?
  {
  }

  /**
   * A run update has one parameter per defined field, in field order, then the id; the id is
   * the last parameter and the WHERE placeholder names its position.
   */
  lemma UpdateIdLast(data: UpdateRequest, id: string)
    ensures var plan, f := UpdatePlanOf(data, id), UpdateFields(data);
      plan.RunUpdate? ==>
        |plan.params| == |f| + 1 && plan.params[|f|] == id &&
        (forall k :: 0 <= k < |f| ==> plan.params[k] == f[k].value) &&
        plan.sql == "UPDATE appointments SET " + Join(Assignments(f, 1), ", ") + " WHERE id = " + Placeholder(|plan.params|)
  {
  }

  /** Assignment `k` of the SET list sets field `k` from parameter `$(k+1)`. */
  lemma UpdateAssignments(data: UpdateRequest)
    ensures var f, a := UpdateFields(data), Assignments(UpdateFields(data), 1);
      |a| == |f| && forall k :: 0 <= k < |f| ==> a[k] == f[k].column + " = " + Placeholder(k + 1)
  {
    AssignmentsNumbered(UpdateFields(data), 1);
  }

  /** The first three set fields keep the fixed order date, time slot, name. */
  lemma UpdateHeadInOrder(data: UpdateRequest)
    ensures var f := Defined(data.date, "date") + Defined(data.timeSlot, "time_slot") + Defined(data.patientName, "patient_name");
      Ordered(f, UpdateRank) && Below(f, UpdateRank, 3)
  {
    var a, b, c := Defined(data.date, "date"), Defined(data.timeSlot, "time_slot"), Defined(data.patientName, "patient_name");
    UpdateRanks();
    DefinedOfRank(data.date, "date", UpdateRank, 0);
    DefinedOfRank(data.timeSlot, "time_slot", UpdateRank, 1);
    DefinedOfRank(data.patientName, "patient_name", UpdateRank, 2);
    OrderedExtend([], a, UpdateRank, 0);
    assert [] + a == a;
    OrderedExtend(a, b, UpdateRank, 1);
    OrderedExtend(a + b, c, UpdateRank, 2);
  }

  lemma DefinedOfRank(o: Option<string>, column: string, rank: string -> nat, r: nat)
    requires rank(column) == r
    ensures OneOfRank(Defined(o, column), rank, r)
  {
  }

  lemma UpdateRanks()
    ensures UpdateRank("date") == 0 && UpdateRank("time_slot") == 1 && UpdateRank("patient_name") == 2
    ensures UpdateRank("department") == 3 && UpdateRank("patient_phone") == 4
  {
  }

  /** The set fields keep the fixed order date, time slot, name, department, phone. */
  lemma UpdateFieldsInOrder(data: UpdateRequest)
    ensures Ordered(UpdateFields(data), UpdateRank)
  {
    var head := Defined(data.date, "date") + Defined(data.timeSlot, "time_slot") + Defined(data.patientName, "patient_name");
    UpdateHeadInOrder(data);
    UpdateRanks();
    DefinedOfRank(data.department, "department", UpdateRank, 3);
    DefinedOfRank(data.patientPhone, "patient_phone", UpdateRank, 4);
    OrderedExtend(head, Defined(data.department, "department"), UpdateRank, 3);
    OrderedExtend(head + Defined(data.department, "department"), Defined(data.patientPhone, "patient_phone"), UpdateRank, 4);
  }

  function UpdateRank(column: string): nat
  {
    if column == "date" then 0
    else if column == "time_slot" then 1
    else if column == "patient_name" then 2
    else if column == "department" then 3
    else 4
  }

  /** The answer of the PUT branch: 400 when nothing is set, 404 when the update touches no row, 200 otherwise. */
  function UpdateStatus(plan: UpdatePlan, rowCount: UpdatePlan -> nat): (status: nat)
    ensures plan.NoFieldsToUpdate? ==> status == 400
    ensures plan.RunUpdate? ==> (status == 404 <==> rowCount(plan) == 0) && (status == 200 <==> rowCount(plan) != 0)
  {
    if plan.NoFieldsToUpdate? then 400 else if rowCount(plan) == 0 then 404 else 200
  }

  // ---------------------------------------------------------------- POST: required fields

  /** The body of a create; `None` is a key the JSON body does not have. */
  datatype CreateRequest = CreateRequest(
    date: Option<string>, timeSlot: Option<string>, patientName: Option<string>,
    department: Option<string>, patientPhone: Option<string>)

  /** What the POST handler sends to the database, or that it refuses (status 400) before any insert. */
  datatype InsertPlan = MissingFields | RunInsert(params: seq<string>)

  /** JavaScript truthiness of a string field: present and not empty. */
  predicate Given(o: Option<string>)
  {
    o.Some? && o.value != ""
  }

  /** appointments.ts lines 145-160: all five fields must be given; the insert takes them as `$1..$5` in column order. */
  function InsertPlanOf(body: CreateRequest): (r: InsertPlan)
    ensures r == MissingFields <==>
      !Given(body.date) || !Given(body.timeSlot) || !Given(body.patientName) || !Given(body.department) || !Given(body.patientPhone)
    ensures r.RunInsert? ==>
      |r.params| == 5 && (forall k :: 0 <= k < 5 ==> r.params[k] != "") &&
      r.params == [body.date.value, body.timeSlot.value, body.patientName.value, body.department.value, body.patientPhone.value]
  {
    if !Given(body.date) || !Given(body.timeSlot) || !Given(body.patientName) || !Given(body.department) || !Given(body.patientPhone) then
      MissingFields
    else
      RunInsert([body.date.value, body.timeSlot.value, body.patientName.value, body.department.value, body.patientPhone.value])
  }

  /** The answer of the POST branch: 400 before any insert when a field is missing, 201 after it. */
  function CreateStatus(plan: InsertPlan): (status: nat)
    ensures status == 400 <==> plan == MissingFields
    ensures status == 201 <==> plan.RunInsert?
  {
    if plan.MissingFields? then 400 else 201
  }
}
