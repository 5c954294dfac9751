/** The REST controller `Tasks` over the task table: a paginated listing,
    and create, show, update and delete of one task. Each action answers
    with a status, its headers and a body; the request body of create and
    update is given already decoded, as a map from keys to values. */
module TasksController {
  import opened Common
  import opened BooleanFilter
  import opened TaskModel
  import opened TaskQuery
  import opened ListQuery

  datatype Header = Header(name: string, value: string)

  /** The `meta` object of a listing. `sort`, `search` and `completed` echo
      the request's values. */
  datatype Meta = Meta(page: nat, perPage: nat, total: nat, totalPages: nat, sort: string,
                       search: Option<string>, completed: Option<string>)

  datatype Body =
    | NoBody
    | ErrorList(fields: seq<Field>)
    | Record(task: Task)
    | NotFoundMessage
    | Listing(data: seq<Task>, meta: Meta, links: Links)
    | ServerError

  datatype Response = Response(status: nat, headers: seq<Header>, body: Body)

  const NotFound := Response(404, [], NotFoundMessage)

  function Unprocessable(errs: seq<Field>): Response {
    Response(422, [], ErrorList(errs))
  }

  // ------------------------------------------------------------ request body

  /** The body's `completed`, when present, resolves through the boolean filter. */
  predicate CompletedResolves(body: map<string, Json>) {
    "completed" !in body || FilterBool(body["completed"]).Some?
  }

  /** The body after `completed` is overwritten with the 1 or 0 it resolves to. */
  function Normalized(body: map<string, Json>): (data: map<string, Json>)
    requires CompletedResolves(body)
    ensures data.Keys == body.Keys
    ensures forall k :: k in body && k != "completed" ==> data[k] == body[k]
    ensures "completed" in body ==>
      data["completed"] == JInt(if FilterBool(body["completed"]) == Some(true) then 1 else 0)
  {
    if "completed" in body then
      body["completed" := JInt(if FilterBool(body["completed"]).value then 1 else 0)]
    else body
  }

  /** The controller's `in_list[0,1]`. */
  predicate InList01(v: Json) {
    RuleString(v).Some? && RuleString(v).value in {"0", "1"}
  }

  /** Create's title rule `required|string|min_length[3]|max_length[255]`. */
  predicate CreateTitleOk(v: Json) {
    v.JStr? && Trim(v.s) != "" && 3 <= |v.s| <= 255
  }

  /** Update's title rule `if_exist|string|min_length[3]|max_length[255]`, for a present title. */
  predicate UpdateTitleOk(v: Json) {
    v.JStr? && 3 <= |v.s| <= 255
  }

  /** The fields the controller's create rules reject. */
  function CreateRuleErrors(data: map<string, Json>): (errs: seq<Field>)
    ensures Title in errs <==> !("title" in data && CreateTitleOk(data["title"]))
    ensures Completed in errs <==> "completed" in data && !InList01(data["completed"])
    ensures forall f :: f in errs ==> f in {Title, Completed}
  {
    (if "title" in data && CreateTitleOk(data["title"]) then [] else [Title])
    + (if "completed" in data && !InList01(data["completed"]) then [Completed] else [])
  }

  /** The fields the controller's update rules reject. */
  function UpdateRuleErrors(data: map<string, Json>): (errs: seq<Field>)
    ensures Title in errs <==> "title" in data && !UpdateTitleOk(data["title"])
    ensures Completed in errs <==> "completed" in data && !InList01(data["completed"])
    ensures forall f :: f in errs ==> f in {Title, Completed}
  {
    (if "title" in data && !UpdateTitleOk(data["title"]) then [Title] else [])
    + (if "completed" in data && !InList01(data["completed"]) then [Completed] else [])
  }

  /** `getValidated()`: only the fields that have a rule, when present. */
  function Validated(data: map<string, Json>): (valid: map<string, Json>)
    ensures valid.Keys == data.Keys * AllowedFields
    ensures forall k :: k in valid ==> valid[k] == data[k]
  {
    map k | k in data && k in AllowedFields :: data[k]
  }

  // ------------------------------------------------------------ properties

  /** Validated data is empty exactly when it has nothing to write. */
  lemma ValidatedEmptyIffNothingWritable(data: map<string, Json>)
    ensures |Validated(data)| == 0 <==> !HasWritable(Validated(data))
  {
    var valid := Validated(data);
    if !HasWritable(valid) {
      assert valid.Keys == {} by {
        assert forall k :: k in valid.Keys ==> k == "title" || k == "completed";
      }
      assert |valid| == |valid.Keys|;
    } else {
      assert ("title" in valid || "completed" in valid);
    }
  }

  /** A normalised `completed` is always 0 or 1, so the controller's own
      `in_list[0,1]` never rejects it: after normalisation only the title
      can fail. */
  lemma NormalizedCompletedAccepted(body: map<string, Json>)
    requires CompletedResolves(body)
    ensures Completed !in CreateRuleErrors(Normalized(body))
    ensures Completed !in UpdateRuleErrors(Normalized(body))
  {
    var data := Normalized(body);
    if "completed" in body {
      var v := data["completed"];
      assert v == JInt(0) || v == JInt(1);
      assert RuleString(JInt(0)).value == "0" && RuleString(JInt(1)).value == "1";
    }
  }

  /** Data the controller accepts for a create is accepted by the table too,
      so the insert of a validated body never fails. */
  lemma CreateAcceptedInserts(data: map<string, Json>)
    requires CreateRuleErrors(data) == []
    ensures |Validated(data)| != 0
    ensures InsertErrors(Validated(data)) == []
  {
    var valid := Validated(data);
    assert "title" in valid && TitleRuleOk(valid["title"]);
    assert |valid| == |valid.Keys| && "title" in valid.Keys;
    if "completed" in valid {
      assert CompletedRuleOk(valid["completed"]);
    }
  }

  /** The row a create inserts for an accepted body: the body's title, the
      1 or 0 its `completed` resolves to (0 when it is absent), both
      timestamps set to the time of the insert. */
  function CreatedRow(id: nat, body: map<string, Json>, now: Time): (row: Task)
    requires CompletedResolves(body) && CreateRuleErrors(Normalized(body)) == []
    ensures row.id == id && row.createdAt == now && row.updatedAt == now
    ensures "title" in body && row.title == body["title"].s
    ensures row.completed == if "completed" in body && FilterBool(body["completed"]) == Some(true) then 1 else 0
  {
    var data := Normalized(body);
    CreateAcceptedInserts(data);
    ValidatedKeeps(data);
    NormalizedBitStored(body);
    NewRow(id, Validated(data), now)
  }

  /** A normalised `completed` is a stored bit: not empty, accepted by the
      table, and the digit of its boolean. */
  lemma NormalizedBitStored(body: map<string, Json>)
    requires CompletedResolves(body)
    ensures "completed" in body ==>
      var v := Normalized(body)["completed"];
      && !IsEmptyValue(v) && CompletedRuleOk(v)
      && RuleString(v) == Some(if FilterBool(body["completed"]) == Some(true) then "1" else "0")
  {
    if "completed" in body {
      var v := Normalized(body)["completed"];
      assert RuleString(JInt(0)).value == "0" && RuleString(JInt(1)).value == "1";
      BitIsNotEmpty(v);
    }
  }

  /** For an update the controller does not demand `required`, so the table's
      rules still decide: data the controller accepts is rejected by the
      table exactly when it carries a title that is blank once trimmed
      (three spaces, say), and then only for the title. */
  lemma UpdateRejectedOnlyForBlankTitle(data: map<string, Json>)
    requires UpdateRuleErrors(data) == []
    ensures UpdateErrors(Validated(data)) != [] <==> "title" in data && Trim(data["title"].s) == ""
    ensures UpdateErrors(Validated(data)) != [] ==> UpdateErrors(Validated(data)) == [Title]
  {
    var valid := Validated(data);
    ValidatedKeeps(data);
    if "completed" in data {
      BitIsNotEmpty(data["completed"]);
    }
    assert !("completed" in valid && !CompletedRuleOk(valid["completed"]));
    if "title" in data {
      TitleFailsOnlyWhenBlank(data["title"]);
    }
    assert ("title" in valid && !TitleRuleOk(valid["title"])) <==> "title" in data && Trim(data["title"].s) == "";
  }

  /** A title the update rules accept breaks the table's rule only by being blank. */
  lemma TitleFailsOnlyWhenBlank(v: Json)
    requires UpdateTitleOk(v)
    ensures !TitleRuleOk(v) <==> Trim(v.s) == ""
  {
    assert RuleString(v) == Some(v.s);
  }

  /** `getValidated()` keeps `title` and `completed` exactly as given. */
  lemma ValidatedKeeps(data: map<string, Json>)
    ensures "title" in Validated(data) <==> "title" in data
    ensures "completed" in Validated(data) <==> "completed" in data
    ensures "title" in data ==> Validated(data)["title"] == data["title"]
    ensures "completed" in data ==> Validated(data)["completed"] == data["completed"]
  {
    assert "title" in AllowedFields && "completed" in AllowedFields;
  }

  /** A validated update writes only the allowed fields: the title given
      (if any), the completed bit given (if any), `updated_at`; id and
      `created_at` are kept. */
  lemma UpdateWritesOnlyValidatedFields(t: Task, data: map<string, Json>, now: Time)
    requires RowValid(t) && UpdateRuleErrors(data) == [] && UpdateErrors(Validated(data)) == []
    ensures var u := Patched(t, Validated(data), now);
      && u.id == t.id && u.createdAt == t.createdAt && u.updatedAt == now
      && u.title == (if "title" in data then data["title"].s else t.title)
      && u.completed == (if "completed" !in data then t.completed
                         else if RuleString(data["completed"]) == Some("1") then 1 else 0)
  {
    ValidatedKeeps(data);
    if "completed" in data {
      CompletedWritten(t, data, now);
    }
  }

  lemma CompletedWritten(t: Task, data: map<string, Json>, now: Time)
    requires RowValid(t) && UpdateErrors(Validated(data)) == []
    requires "completed" in data && InList01(data["completed"])
    ensures Patched(t, Validated(data), now).completed == if RuleString(data["completed"]) == Some("1") then 1 else 0
  {
    ValidatedKeeps(data);
    BitIsNotEmpty(data["completed"]);
  }

  /** A value `in_list[0,1]` accepts is not blank, and the table accepts it. */
  lemma BitIsNotEmpty(v: Json)
    requires InList01(v)
    ensures !IsEmptyValue(v) && CompletedRuleOk(v)
  {
    var str := RuleString(v).value;
    assert |str| == 1 && IsDigit(str[0]) by {
      assert str == "0" || str == "1";
    }
    TrimKeeps(str);
  }

  /** Every stored row is listed under `nextId`. */
  lemma InvariantKeys(rows: map<nat, Task>, nextId: nat)
    requires TableInvariant(rows, nextId)
    ensures KeysAreIds(rows)
  {
  }

  /** The ids of the rows below `n` that pass the filters, gathered id by id. */
  function MatchingIds(rows: map<nat, Task>, n: nat, f: Filter): set<nat> {
    if n == 0 then {}
    else MatchingIds(rows, n - 1, f) + (if Hit(rows, n - 1, f) then {n - 1} else {})
  }

  /** `MatchingIds` holds exactly the ids of matching rows below `n`. */
  lemma {:induction false} MatchingIdsMembers(rows: map<nat, Task>, n: nat, f: Filter, id: nat)
    ensures id in MatchingIds(rows, n, f) <==> id < n && Hit(rows, id, f)
  {
    if n > 0 {
      MatchingIdsMembers(rows, n - 1, f, id);
    }
  }

  lemma {:induction false} SelectAppend(a: seq<Task>, b: seq<Task>, f: Filter)
    ensures Select(a + b, f) == Select(a, f) + Select(b, f)
  {
    if a == [] {
      assert a + b == b;
    } else {
      assert (a + b)[0] == a[0];
      assert (a + b)[1..] == a[1..] + b;
      SelectAppend(a[1..], b, f);
    }
  }

  /** Whether row `id` is counted: present and passing the filters. */
  predicate Hit(rows: map<nat, Task>, id: nat, f: Filter) {
    id in rows && Matches(rows[id], f)
  }

  /** The number of rows the listing query selects among the ids below `n`. */
  function SelectedCount(rows: map<nat, Task>, n: nat, f: Filter): nat
    requires KeysAreIds(rows)
  {
    |Select(RowsBelow(rows, n), f)|
  }

  /** Raising the bound by one selects one more row exactly on a hit. */
  lemma SelectStep(rows: map<nat, Task>, n: nat, f: Filter)
    requires KeysAreIds(rows) && n > 0
    ensures SelectedCount(rows, n, f) == SelectedCount(rows, n - 1, f) + (if Hit(rows, n - 1, f) then 1 else 0)
  {
    var extra := if n - 1 in rows then [rows[n - 1]] else [];
    assert RowsBelow(rows, n) == RowsBelow(rows, n - 1) + extra;
    SelectAppend(RowsBelow(rows, n - 1), extra, f);
    if extra != [] {
      assert extra[1..] == [];
    }
  }

  /** ... and adds one more id exactly on a hit. */
  lemma MatchingIdsStep(rows: map<nat, Task>, n: nat, f: Filter)
    requires n > 0
    ensures |MatchingIds(rows, n, f)| == |MatchingIds(rows, n - 1, f)| + (if Hit(rows, n - 1, f) then 1 else 0)
  {
    var before := MatchingIds(rows, n - 1, f);
    if Hit(rows, n - 1, f) {
      MatchingIdsMembers(rows, n - 1, f, n - 1);
      assert n - 1 !in before;
      assert MatchingIds(rows, n, f) == before + {n - 1};
    } else {
      assert MatchingIds(rows, n, f) == before + {};
      assert before + {} == before;
    }
  }

  /** The total of a listing is the number of matching rows of the table. */
  lemma TotalCountsMatchingRows(rows: map<nat, Task>, n: nat, f: Filter)
    requires KeysAreIds(rows)
    ensures SelectedCount(rows, n, f) == |MatchingIds(rows, n, f)|
  {
    CountBase(rows, f);
    var k := 0;
    while k < n
      invariant k <= n
      invariant SelectedCount(rows, k, f) == |MatchingIds(rows, k, f)|
    {
      CountStep(rows, k, f);
      k := k + 1;
    }
  }

  lemma CountBase(rows: map<nat, Task>, f: Filter)
    requires KeysAreIds(rows)
    ensures SelectedCount(rows, 0, f) == |MatchingIds(rows, 0, f)| == 0
  {
    assert RowsBelow(rows, 0) == [];
  }

  lemma CountStep(rows: map<nat, Task>, m: nat, f: Filter)
    requires KeysAreIds(rows)
    requires SelectedCount(rows, m, f) == |MatchingIds(rows, m, f)|
    ensures SelectedCount(rows, m + 1, f) == |MatchingIds(rows, m + 1, f)|
  {
    SelectStep(rows, m + 1, f);
    MatchingIdsStep(rows, m + 1, f);
  }

  /** A row that is not in the table is in no page of any listing. */
  lemma AbsentRowNotListed(rows: map<nat, Task>, n: nat, f: Filter, k: SortField, d: Direction,
                           perPage: nat, page: nat, id: nat)
    requires KeysAreIds(rows) && page >= 1 && id !in rows
    ensures forall t :: t in Paginate(rows, n, f, k, d, perPage, page).rows ==> t.id != id
  {
  }

  /** The column of an accepted sort token. */
  function OrderOf(sort: string): SortField
    requires sort in SortTokens
  {
    SortTokenResolves(sort);
    SortColumn(sort).value
  }

  /** The tail of a `Location` header: the path of the task's `show` route. */
  function ShowPath(id: nat): string {
    "api/tasks/" + NatToString(id)
  }

  // ------------------------------------------------------------ controller

  class Tasks {
    const model: TaskTable
    /** `base_url()` and the site URL `url_to` builds on. */
    const baseUrl: string
    const siteUrl: string

    ghost predicate Valid()
      reads this, model
    {
      model.Valid()
    }

    constructor (model: TaskTable, baseUrl: string, siteUrl: string)
      requires model.Valid()
      ensures Valid()
      ensures this.model == model && this.baseUrl == baseUrl && this.siteUrl == siteUrl
    {
      this.model := model;
      this.baseUrl := baseUrl;
      this.siteUrl := siteUrl;
    }

    /** `GET /api/tasks`: read the query string as a PHP array, validate it,
        run the listing, answer with the page, its `meta`, its links and the
        `X-Total-Count` and `Link` headers; any failing parameter gives 422
        and no query runs. */
    method Index(q: Query) returns (resp: Response)
      requires Valid()
      ensures ListErrors(PhpArray(q)) != [] ==> resp == Unprocessable(ListErrors(PhpArray(q)))
      ensures ListErrors(PhpArray(q)) == [] ==>
        var get := PhpArray(q);
        var s := Resolve(get);
        var f := FilterOf(s);
        var p := Paginate(model.rows, model.nextId, f, OrderOf(s.sort), SortDirection(s.sort), s.perPage, s.page);
        var last := TotalPages(p.total, s.perPage);
        var links := BuildLinks(baseUrl + "api/tasks", get, s.page, s.perPage, last);
        && p.total == |MatchingIds(model.rows, model.nextId, f)|
        && resp.status == 200
        && resp.headers == [Header("X-Total-Count", NatToString(p.total)), Header("Link", LinkHeaderOf(links))]
        && resp.body == Listing(p.rows, Meta(s.page, s.perPage, p.total, last, s.sort, s.search, s.completed), links)
    {
      var get := PhpArray(q);
      var errs := ListErrors(get);
      if errs != [] {
        return Unprocessable(errs);
      }
      var s := Resolve(get);
      var f := FilterOf(s);
      InvariantKeys(model.rows, model.nextId);
      var p := Paginate(model.rows, model.nextId, f, OrderOf(s.sort), SortDirection(s.sort), s.perPage, s.page);
      TotalCountsMatchingRows(model.rows, model.nextId, f);
      var last := TotalPages(p.total, s.perPage);
      var links := BuildLinks(baseUrl + "api/tasks", get, s.page, s.perPage, last);
      var linkHeader := LinkHeader(links);
      var meta := Meta(s.page, s.perPage, p.total, last, s.sort, s.search, s.completed);
      resp := Response(200, [Header("X-Total-Count", NatToString(p.total)), Header("Link", linkHeader)],
                       Listing(p.rows, meta, links));
    }

    /** `POST /api/tasks`: normalise `completed`, check the rules, insert the
        validated fields, answer 201 with the stored row and its `Location`. */
    method Create(body: map<string, Json>, now: Time) returns (resp: Response)
      requires Valid()
      modifies model
      ensures Valid()
      ensures !CompletedResolves(body) ==>
        resp == Unprocessable([Completed]) && model.rows == old(model.rows) && model.nextId == old(model.nextId)
      ensures CompletedResolves(body) && CreateRuleErrors(Normalized(body)) != [] ==>
        resp == Unprocessable(CreateRuleErrors(Normalized(body)))
        && model.rows == old(model.rows) && model.nextId == old(model.nextId)
      ensures CompletedResolves(body) && CreateRuleErrors(Normalized(body)) == [] ==>
        var id := old(model.nextId);
        var row := CreatedRow(id, body, now);
        && id !in old(model.rows)
        && model.rows == old(model.rows)[id := row] && model.nextId == id + 1
        && resp == Response(201, [Header("Location", siteUrl + ShowPath(id))], Record(row))
    {
      var data := body;
      if "completed" in data {
        var b := FilterBool(data["completed"]);
        if b.None? {
          return Unprocessable([Completed]);
        }
        data := data["completed" := JInt(if b.value then 1 else 0)];
      }
      assert data == Normalized(body);
      var errs := CreateRuleErrors(data);
      if errs != [] {
        return Unprocessable(errs);
      }
      var valid := Validated(data);
      // the model's rules are implied by the controller's: its insert cannot fail here
      CreateAcceptedInserts(data);
      var r := model.Insert(valid, now);
      var id := r.id;
      var found := model.Find(id);
      resp := Response(201, [Header("Location", siteUrl + ShowPath(id))], Record(found.value));
    }

    /** `GET /api/tasks/{id}`. */
    method Show(id: nat) returns (resp: Response)
      requires Valid()
      ensures id in model.rows ==> resp == Response(200, [], Record(model.rows[id]))
      ensures id !in model.rows ==> resp == NotFound
    {
      var found := model.Find(id);
      if found.None? {
        return NotFound;
      }
      resp := Response(200, [], Record(found.value));
    }

    /** `PUT /api/tasks/{id}`: 404 before the body is read; then `completed`
        is normalised, the controller's rules and the table's rules checked,
        the validated fields written and the row re-read. A body with no
        field to write makes the table throw, answered as 500. */
    method Update(id: nat, body: map<string, Json>, now: Time) returns (resp: Response)
      requires Valid()
      modifies model
      ensures Valid() && model.nextId == old(model.nextId)
      ensures id !in old(model.rows) ==> resp == NotFound && model.rows == old(model.rows)
      ensures id in old(model.rows) && !CompletedResolves(body) ==>
        resp == Unprocessable([Completed]) && model.rows == old(model.rows)
      ensures id in old(model.rows) && CompletedResolves(body) && UpdateRuleErrors(Normalized(body)) != [] ==>
        resp == Unprocessable(UpdateRuleErrors(Normalized(body))) && model.rows == old(model.rows)
      ensures id in old(model.rows) && CompletedResolves(body) && UpdateRuleErrors(Normalized(body)) == [] ==>
        var valid := Validated(Normalized(body));
        && (|valid| == 0 ==> resp == Response(500, [], ServerError) && model.rows == old(model.rows))
        && (|valid| != 0 && UpdateErrors(valid) != [] ==>
              resp == Unprocessable(UpdateErrors(valid)) && model.rows == old(model.rows))
        && (|valid| != 0 && UpdateErrors(valid) == [] ==>
              var row := Patched(old(model.rows)[id], valid, now);
              model.rows == old(model.rows)[id := row] && resp == Response(200, [], Record(row)))
    {
      var existing := model.Find(id);
      if existing.None? {
        return NotFound;
      }
      var data := body;
      if "completed" in data {
        var b := FilterBool(data["completed"]);
        if b.None? {
          return Unprocessable([Completed]);
        }
        data := data["completed" := JInt(if b.value then 1 else 0)];
      }
      assert data == Normalized(body);
      var errs := UpdateRuleErrors(data);
      if errs != [] {
        return Unprocessable(errs);
      }
      var valid := Validated(data);
      ValidatedEmptyIffNothingWritable(data);
      var outcome := model.Update(id, valid, now);
      match outcome
      case EmptyDataset =>
        resp := Response(500, [], ServerError);
      case Rejected(modelErrs) =>
        resp := Unprocessable(modelErrs);
      case Written =>
        assert UpdateErrors(valid) == [];
        ghost var row := Patched(old(model.rows)[id], valid, now);
        assert model.rows == old(model.rows)[id := row];
        var found := model.Find(id);
        assert found.value == row;
        resp := Response(200, [], Record(found.value));
    }

    /** `DELETE /api/tasks/{id}`: 404 for an unknown id, otherwise the row is
        removed for good and the answer is 204 with no body. */
    method Delete(id: nat) returns (resp: Response)
      requires Valid()
      modifies model
      ensures Valid() && model.nextId == old(model.nextId)
      ensures id !in old(model.rows) ==> resp == NotFound && model.rows == old(model.rows)
      ensures id in old(model.rows) ==> resp == Response(204, [], NoBody) && model.rows == old(model.rows) - {id}
    {
      var existing := model.Find(id);
      if existing.None? {
        return NotFound;
      }
      model.Delete(id);
      resp := Response(204, [], NoBody);
    }
  }

  /** A created task is shown as it was returned, at the path its `Location` names. */
  method CreatedIsShown(c: Tasks, body: map<string, Json>, now: Time) returns (created: Response, shown: Response)
    requires c.Valid()
    modifies c.model
    ensures c.Valid()
    ensures created.status == 201 ==>
      && created.body.Record?
      && created.headers == [Header("Location", c.siteUrl + ShowPath(created.body.task.id))]
      && shown == Response(200, [], created.body)
  {
    created := c.Create(body, now);
    if created.status == 201 {
      shown := c.Show(created.body.task.id);
    } else {
      shown := NotFound;
    }
  }

  /** A deleted task is gone: show answers 404 and no listing holds it. */
  method DeletedIsGone(c: Tasks, id: nat, q: Query) returns (deleted: Response, shown: Response, listed: Response)
    requires c.Valid()
    modifies c.model
    ensures c.Valid()
    ensures deleted.status == 204 || deleted == NotFound
    ensures shown == NotFound
    ensures listed.body.Listing? ==> forall t :: t in listed.body.data ==> t.id != id
  {
    deleted := c.Delete(id);
    shown := c.Show(id);
    listed := c.Index(q);
    if ListErrors(PhpArray(q)) == [] {
      var s := Resolve(PhpArray(q));
      InvariantKeys(c.model.rows, c.model.nextId);
      AbsentRowNotListed(c.model.rows, c.model.nextId, FilterOf(s), OrderOf(s.sort), SortDirection(s.sort),
                         s.perPage, s.page, id);
    }
  }
}
