/** The `tasks` table behind the controller, as the TaskModel configures it:
    primary key `id` (auto-increment), only `title` and `completed` writable,
    `created_at`/`updated_at` managed by the model, and the model's own
    validation rules checked on every insert and update. Rows are deleted
    for good (no soft delete). */
module TaskModel {
  import opened Common

  /** A timestamp. The clock is outside the model: each write is given the
      current time, and times are only ever copied and compared. */
  type Time = nat

  datatype Task = Task(id: nat, title: string, completed: int, createdAt: Time, updatedAt: Time)

  /** The table's `allowedFields`: the only keys an insert or update may write. */
  const AllowedFields: set<string> := {"title", "completed"}

  /** The result of an update: written, rejected by the model's rules, or
      refused because nothing writable was left (the framework throws then). */
  datatype WriteOutcome = Written | Rejected(errors: seq<Field>) | EmptyDataset

  /** The result of an insert: the new id, the model's errors, or a refusal
      of an empty data set (the framework throws before validating). */
  datatype InsertOutcome = Inserted(id: nat) | InsertRejected(errors: seq<Field>) | NothingToInsert

  /** The string a validation rule sees for a value (PHP's `(string)` cast);
      arrays and objects have none, and every rule here rejects them. */
  function RuleString(v: Json): Option<string> {
    match v
    case JNull => Some("")
    case JBool(b) => Some(if b then "1" else "")
    case JInt(i) => Some(IntToString(i))
    case JStr(s) => Some(s)
    case JComposite => None
  }

  /** `required`: present, not null, and not blank once trimmed. */
  predicate IsRequiredPresent(v: Json) {
    v != JNull && RuleString(v).Some? && Trim(RuleString(v).value) != ""
  }

  /** A title as the table's rules demand: `required|min_length[3]|max_length[255]`. */
  predicate TitleRuleOk(v: Json) {
    IsRequiredPresent(v) && 3 <= |RuleString(v).value| <= 255
  }

  /** `permit_empty` for a value: blank once converted and trimmed. */
  predicate IsEmptyValue(v: Json) {
    RuleString(v).Some? && Trim(RuleString(v).value) == ""
  }

  /** A completed flag as the table's rules demand: `permit_empty|in_list[0,1]`. */
  predicate CompletedRuleOk(v: Json) {
    IsEmptyValue(v) || (RuleString(v).Some? && RuleString(v).value in {"0", "1"})
  }

  /** Every row the table holds. */
  predicate RowValid(t: Task) {
    3 <= |t.title| <= 255 && Trim(t.title) != "" && t.completed in {0, 1}
  }

  /** The model's errors for an insert: all rules apply, `title` is required. */
  function InsertErrors(data: map<string, Json>): (errs: seq<Field>)
    ensures Title in errs <==> !("title" in data && TitleRuleOk(data["title"]))
    ensures Completed in errs <==> ("completed" in data && !CompletedRuleOk(data["completed"]))
    ensures forall f :: f in errs ==> f in {Title, Completed}
  {
    (if "title" in data && TitleRuleOk(data["title"]) then [] else [Title])
    + (if "completed" in data && !CompletedRuleOk(data["completed"]) then [Completed] else [])
  }

  /** The model's errors for an update: rules of fields absent from the data
      are dropped first, so only the fields being written are checked. */
  function UpdateErrors(data: map<string, Json>): (errs: seq<Field>)
    ensures Title in errs <==> ("title" in data && !TitleRuleOk(data["title"]))
    ensures Completed in errs <==> ("completed" in data && !CompletedRuleOk(data["completed"]))
    ensures forall f :: f in errs ==> f in {Title, Completed}
  {
    (if "title" in data && !TitleRuleOk(data["title"]) then [Title] else [])
    + (if "completed" in data && !CompletedRuleOk(data["completed"]) then [Completed] else [])
  }

  /** The stored 0/1 of an accepted, non-empty completed value. */
  function CompletedBit(v: Json): (b: int)
    requires CompletedRuleOk(v) && !IsEmptyValue(v)
    ensures b == 1 <==> RuleString(v) == Some("1")
    ensures b == 0 <==> RuleString(v) == Some("0")
  {
    if RuleString(v).value == "1" then 1 else 0
  }

  /** The row an accepted insert stores under `id` at time `now`. Only the
      allowed fields are read; an absent or empty completed takes the column
      default 0; both timestamps are `now`. */
  function NewRow(id: nat, data: map<string, Json>, now: Time): (t: Task)
    requires InsertErrors(data) == []
    ensures RowValid(t)
    ensures t.id == id && t.createdAt == now && t.updatedAt == now
    ensures t.title == RuleString(data["title"]).value
    ensures t.completed == if "completed" in data && !IsEmptyValue(data["completed"])
                           then CompletedBit(data["completed"]) else 0
  {
    var title := RuleString(data["title"]).value;
    var completed :=
      if "completed" in data && !IsEmptyValue(data["completed"]) then CompletedBit(data["completed"]) else 0;
    Task(id, title, completed, now, now)
  }

  /** An accepted update applied to row `t`: title and completed replaced when
      given, `updated_at` refreshed, `id` and `created_at` kept. */
  function Patched(t: Task, data: map<string, Json>, now: Time): (u: Task)
    requires RowValid(t) && UpdateErrors(data) == []
    ensures RowValid(u)
    ensures u.id == t.id && u.createdAt == t.createdAt && u.updatedAt == now
    ensures u.title == if "title" in data then RuleString(data["title"]).value else t.title
    ensures u.completed == if "completed" in data && !IsEmptyValue(data["completed"])
                           then CompletedBit(data["completed"]) else t.completed
  {
    var title := if "title" in data then RuleString(data["title"]).value else t.title;
    var completed :=
      if "completed" in data && !IsEmptyValue(data["completed"]) then CompletedBit(data["completed"]) else t.completed;
    Task(t.id, title, completed, t.createdAt, now)
  }

  /** The data holds at least one allowed field. */
  predicate HasWritable(data: map<string, Json>) {
    "title" in data || "completed" in data
  }

  /** Two data sets that agree on the allowed fields. */
  predicate SameAllowed(d1: map<string, Json>, d2: map<string, Json>) {
    forall k :: k in AllowedFields ==> (k in d1 <==> k in d2) && (k in d1 ==> d1[k] == d2[k])
  }

  /** Keys other than `title` and `completed` (an `id`, a `created_at`, anything
      a client adds) change neither the verdict nor the written row. */
  lemma OnlyAllowedFieldsWritten(d1: map<string, Json>, d2: map<string, Json>, id: nat, t: Task, now: Time)
    requires SameAllowed(d1, d2)
    ensures InsertErrors(d1) == InsertErrors(d2) && UpdateErrors(d1) == UpdateErrors(d2)
    ensures InsertErrors(d1) == [] ==> NewRow(id, d1, now) == NewRow(id, d2, now)
    ensures RowValid(t) && UpdateErrors(d1) == [] ==> Patched(t, d1, now) == Patched(t, d2, now)
  {
    assert "title" in AllowedFields && "completed" in AllowedFields;
  }

  /** The table invariant on its values: ids are positive, below the next
      id and match their row; every row keeps the table's rules. */
  predicate TableInvariant(rows: map<nat, Task>, nextId: nat) {
    1 <= nextId &&
    forall id :: id in rows ==> 1 <= id < nextId && rows[id].id == id && RowValid(rows[id])
  }

  /** Storing a valid row under its own id, below the next id, keeps the invariant. */
  lemma PutKeepsInvariant(rows: map<nat, Task>, nextId: nat, row: Task)
    requires TableInvariant(rows, nextId)
    requires 1 <= row.id < nextId && RowValid(row)
    ensures TableInvariant(rows[row.id := row], nextId)
  {
  }

  /** The TaskModel instance: the rows by id and the next auto-increment id. */
  class TaskTable {
    var rows: map<nat, Task>
    var nextId: nat

    ghost predicate Valid()
      reads this
    {
      TableInvariant(rows, nextId)
    }

    constructor ()
      ensures Valid() && rows == map[] && nextId == 1
    {
      rows := map[];
      nextId := 1;
    }

    /** `find($id)`: the row, or nothing. */
    method Find(id: nat) returns (r: Option<Task>)
      requires Valid()
      ensures r.Some? <==> id in rows
      ensures r.Some? ==> r.value == rows[id] && r.value.id == id && RowValid(r.value)
    {
      if id in rows {
        r := Some(rows[id]);
      } else {
        r := None;
      }
    }

    /** `insert($data, true)`: an empty data set is refused; otherwise
        validate, keep the allowed fields, stamp both timestamps and store
        under the next id, which is returned. */
    method Insert(data: map<string, Json>, now: Time) returns (r: InsertOutcome)
      requires Valid()
      modifies this
      ensures Valid()
      ensures r == (if |data| == 0 then NothingToInsert
                    else if InsertErrors(data) != [] then InsertRejected(InsertErrors(data))
                    else Inserted(old(nextId)))
      ensures !r.Inserted? ==> rows == old(rows) && nextId == old(nextId)
      ensures r.Inserted? ==>
        && r.id !in old(rows)
        && rows == old(rows)[r.id := NewRow(r.id, data, now)]
        && nextId == old(nextId) + 1
    {
      if |data| == 0 {
        return NothingToInsert;
      }
      var errs := InsertErrors(data);
      if errs != [] {
        return InsertRejected(errs);
      }
      var id := nextId;
      var row := NewRow(id, data, now);
      PutKeepsInvariant(rows, nextId + 1, row);
      rows := rows[id := row];
      nextId := nextId + 1;
      r := Inserted(id);
    }

    /** `update($id, $data)`: an empty data set is refused; the rules of the
        fields present are checked; the allowed fields and `updated_at` are
        written to the row with that id, if there is one. */
    method Update(id: nat, data: map<string, Json>, now: Time) returns (r: WriteOutcome)
      requires Valid()
      modifies this
      ensures Valid() && nextId == old(nextId)
      ensures r == (if |data| == 0 then EmptyDataset
                    else if UpdateErrors(data) != [] then Rejected(UpdateErrors(data))
                    else if !HasWritable(data) then EmptyDataset
                    else Written)
      ensures r.Written? && id in old(rows) ==> rows == old(rows)[id := Patched(old(rows)[id], data, now)]
      ensures !(r.Written? && id in old(rows)) ==> rows == old(rows)
    {
      if |data| == 0 {
        return EmptyDataset;
      }
      var errs := UpdateErrors(data);
      if errs != [] {
        return Rejected(errs);
      }
      if !HasWritable(data) {
        return EmptyDataset;
      }
      if id in rows {
        var row := Patched(rows[id], data, now);
        PutKeepsInvariant(rows, nextId, row);
        rows := rows[id := row];
      }
      r := Written;
    }

    /** `delete($id)`: the row is removed for good. */
    method Delete(id: nat)
      requires Valid()
      modifies this
      ensures Valid()
      ensures rows == old(rows) - {id} && nextId == old(nextId)
      ensures id !in rows
    {
      rows := rows - {id};
    }
  }
}
