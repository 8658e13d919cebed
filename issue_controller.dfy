/** The issue handlers that read one row or change the `issues` table:
    create, fetch by id, update, change status and delete. Each guard ladder
    is stated as a function giving the rejection, if any, in the handler's
    order; the handler methods are proved against those functions. */
module IssueController {
  import opened Common
  import opened Tables
  import opened IssueQuery

  /** The body of POST /issues. */
  datatype NewIssue = NewIssue(
    title: Arg<string>,
    description: Arg<string>,
    severity: Arg<string>,
    priority: Arg<string>,
    assignedTo: Arg<int>,
    dueDate: Arg<int>)

  /** `!x || valid.includes(x)`: a falsy value passes, a truthy one must be listed. */
  predicate Listed(a: Arg<string>, valid: seq<string>) {
    Truthy(a) ==> a.value in valid
  }

  /** `if (assigned_to)` then an active user with that id must exist. */
  predicate AssigneeOk(users: map<int, User>, a: Arg<int>) {
    a.Given? ==> IsActiveUser(users, a.value)
  }

  /** The guards of createIssue, in order: a title, an active assignee if
      one is named, then a valid severity and priority when they are given.
      Each ensures names one rejection and the checks it comes after. */
  function CreateRejection(users: map<int, User>, body: NewIssue): (r: Option<Rejection>)
    ensures r.None? <==>
      Truthy(body.title) && AssigneeOk(users, body.assignedTo)
      && Listed(body.severity, ValidSeverities) && Listed(body.priority, ValidPriorities)
    ensures !Truthy(body.title) ==> r == Some(Rejection(400, "Title is required"))
    ensures (Truthy(body.title) && !AssigneeOk(users, body.assignedTo)) ==>
      r == Some(Rejection(404, "Assigned user not found"))
    ensures (Truthy(body.title) && AssigneeOk(users, body.assignedTo)
      && !Listed(body.severity, ValidSeverities)) ==>
      r == Some(Rejection(400, "Invalid severity"))
    ensures (Truthy(body.title) && AssigneeOk(users, body.assignedTo)
      && Listed(body.severity, ValidSeverities) && !Listed(body.priority, ValidPriorities)) ==>
      r == Some(Rejection(400, "Invalid priority"))
  {
    if !Truthy(body.title) then Some(Rejection(400, "Title is required"))
    else if !AssigneeOk(users, body.assignedTo) then Some(Rejection(404, "Assigned user not found"))
    else if !Listed(body.severity, ValidSeverities) then Some(Rejection(400, "Invalid severity"))
    else if !Listed(body.priority, ValidPriorities) then Some(Rejection(400, "Invalid priority"))
    else None
  }

  /** The row the INSERT writes. */
  function NewIssueRow(body: NewIssue, id: int, creator: int, now: int): (row: Issue)
    requires body.title.Given?
    ensures row.id == id && row.title == Some(body.title.value) && row.status == Some("open")
    ensures row.createdBy == creator && row.createdAt == now && row.updatedAt == now
    ensures Truthy(body.description) ==> row.description == Some(body.description.value)
    ensures !Truthy(body.description) ==> row.description.None?
    ensures row.severity == Some(if Truthy(body.severity) then body.severity.value else "medium")
    ensures row.priority == Some(if Truthy(body.priority) then body.priority.value else "medium")
    ensures body.assignedTo.Given? ==> row.assignedTo == Some(body.assignedTo.value)
    ensures !body.assignedTo.Given? ==> row.assignedTo.None?
    ensures body.dueDate.Given? ==> row.dueDate == Some(body.dueDate.value)
    ensures !body.dueDate.Given? ==> row.dueDate.None?
  {
    Issue(id, Some(body.title.value), OrNull(body.description),
      Some(OrDefault(body.severity, "medium")), Some(OrDefault(body.priority, "medium")),
      Some("open"), creator,
      if body.assignedTo.Given? then Some(body.assignedTo.value) else None,
      if body.dueDate.Given? then Some(body.dueDate.value) else None,
      now, now)
  }

  /** A created issue is open, has a valid severity and priority (medium
      unless given), belongs to its creator and is assigned only to an
      active user. */
  lemma CreatedIssueIsValid(users: map<int, User>, body: NewIssue, id: int, creator: int, now: int)
    requires CreateRejection(users, body).None?
    ensures var row := NewIssueRow(body, id, creator, now);
      && row.status == Some("open")
      && row.severity.Some? && row.severity.value in ValidSeverities
      && row.priority.Some? && row.priority.value in ValidPriorities
      && (!Truthy(body.severity) ==> row.severity == Some("medium"))
      && (!Truthy(body.priority) ==> row.priority == Some("medium"))
      && (Truthy(body.severity) ==> row.severity == Some(body.severity.value))
      && (Truthy(body.priority) ==> row.priority == Some(body.priority.value))
      && (!Truthy(body.description) ==> row.description.None?)
      && (Truthy(body.description) ==> row.description == Some(body.description.value))
      && row.createdBy == creator && row.createdAt == now && row.updatedAt == now
      && (row.assignedTo.Some? ==> IsActiveUser(users, row.assignedTo.value))
      && (row.description.Some? ==> row.description.value != "")
  {
  }

  /** POST /issues by the signed-in user `caller` at time `now`. */
  method CreateIssue(db: Db, body: NewIssue, caller: int, now: int) returns (r: Response<IssueView>)
    requires db.Valid()
    modifies db
    ensures db.Valid()
    ensures CreateRejection(old(db.users), body).Some? ==>
      var e := CreateRejection(old(db.users), body).value;
      r == Err(e.code, e.message) && unchanged(db)
    ensures CreateRejection(old(db.users), body).None? ==>
      var id := old(db.nextIssueId);
      && id !in old(db.issues)
      && db.issues == old(db.issues)[id := NewIssueRow(body, id, caller, now)]
      && |db.issues| == |old(db.issues)| + 1
      && db.nextIssueId == id + 1
      && db.users == old(db.users) && db.nextUserId == old(db.nextUserId)
      && r == Ok(201, ViewOf(db.users, db.issues[id]))
  {
    if !Truthy(body.title) {
      return Err(400, "Title is required");
    }
    if body.assignedTo.Given? && !IsActiveUser(db.users, body.assignedTo.value) {
      return Err(404, "Assigned user not found");
    }
    if Truthy(body.severity) && body.severity.value !in ValidSeverities {
      return Err(400, "Invalid severity");
    }
    if Truthy(body.priority) && body.priority.value !in ValidPriorities {
      return Err(400, "Invalid priority");
    }
    var id := db.nextIssueId;
    db.issues := db.issues[id := NewIssueRow(body, id, caller, now)];
    db.nextIssueId := id + 1;
    r := Ok(201, ViewOf(db.users, db.issues[id]));
  }

  /** GET /issues/:id. */
  method GetIssueById(db: Db, id: int) returns (r: Response<IssueView>)
    ensures id in db.issues ==> r == Ok(200, ViewOf(db.users, db.issues[id]))
    ensures id !in db.issues ==> r == Err(404, "Issue not found")
  {
    if id !in db.issues {
      return Err(404, "Issue not found");
    }
    r := Ok(200, ViewOf(db.users, db.issues[id]));
  }

  /** The body of PUT /issues/:id. */
  datatype IssuePatch = IssuePatch(
    title: Arg<string>,
    description: Arg<string>,
    severity: Arg<string>,
    priority: Arg<string>,
    status: Arg<string>,
    assignedTo: Arg<int>,
    dueDate: Arg<int>)

  predicate NothingToUpdate(body: IssuePatch) {
    && body.title.Undefined? && body.description.Undefined? && body.severity.Undefined?
    && body.priority.Undefined? && body.status.Undefined? && body.assignedTo.Undefined?
    && body.dueDate.Undefined?
  }

  /** The guards of updateIssue, in order: the issue exists; status,
      severity and priority are valid when truthy; a named assignee is
      active; and at least one field is present. */
  function UpdateRejection(users: map<int, User>, issues: map<int, Issue>, id: int, body: IssuePatch): (r: Option<Rejection>)
    ensures r.None? <==>
      id in issues && Listed(body.status, ValidStatuses) && Listed(body.severity, ValidSeverities)
      && Listed(body.priority, ValidPriorities) && AssigneeOk(users, body.assignedTo)
      && !NothingToUpdate(body)
    ensures id !in issues ==> r == Some(Rejection(404, "Issue not found"))
    ensures (id in issues && !Listed(body.status, ValidStatuses)) ==>
      r == Some(Rejection(400, "Invalid status"))
    ensures (id in issues && Listed(body.status, ValidStatuses)
      && !Listed(body.severity, ValidSeverities)) ==>
      r == Some(Rejection(400, "Invalid severity"))
    ensures (id in issues && Listed(body.status, ValidStatuses) && Listed(body.severity, ValidSeverities)
      && !Listed(body.priority, ValidPriorities)) ==>
      r == Some(Rejection(400, "Invalid priority"))
    ensures (id in issues && Listed(body.status, ValidStatuses) && Listed(body.severity, ValidSeverities)
      && Listed(body.priority, ValidPriorities) && !AssigneeOk(users, body.assignedTo)) ==>
      r == Some(Rejection(404, "Assigned user not found"))
    ensures (id in issues && Listed(body.status, ValidStatuses) && Listed(body.severity, ValidSeverities)
      && Listed(body.priority, ValidPriorities) && AssigneeOk(users, body.assignedTo)
      && NothingToUpdate(body)) ==>
      r == Some(Rejection(400, "No fields to update"))
  {
    if id !in issues then Some(Rejection(404, "Issue not found"))
    else if !Listed(body.status, ValidStatuses) then Some(Rejection(400, "Invalid status"))
    else if !Listed(body.severity, ValidSeverities) then Some(Rejection(400, "Invalid severity"))
    else if !Listed(body.priority, ValidPriorities) then Some(Rejection(400, "Invalid priority"))
    else if !AssigneeOk(users, body.assignedTo) then Some(Rejection(404, "Assigned user not found"))
    else if NothingToUpdate(body) then Some(Rejection(400, "No fields to update"))
    else None
  }

  /** The row after the update: each field present in the body is written
      (null clears it), every other column keeps its value. */
  function Patched(i: Issue, body: IssuePatch): (r: Issue)
    ensures r.id == i.id && r.createdBy == i.createdBy
    ensures r.createdAt == i.createdAt && r.updatedAt == i.updatedAt
    ensures NothingToUpdate(body) ==> r == i
    ensures body.title.Undefined? ==> r.title == i.title
    ensures body.title.Null? ==> r.title.None?
    ensures body.title.Given? ==> r.title == Some(body.title.value)
    ensures body.description.Undefined? ==> r.description == i.description
    ensures body.description.Null? ==> r.description.None?
    ensures body.description.Given? ==> r.description == Some(body.description.value)
    ensures body.severity.Undefined? ==> r.severity == i.severity
    ensures body.severity.Null? ==> r.severity.None?
    ensures body.severity.Given? ==> r.severity == Some(body.severity.value)
    ensures body.priority.Undefined? ==> r.priority == i.priority
    ensures body.priority.Null? ==> r.priority.None?
    ensures body.priority.Given? ==> r.priority == Some(body.priority.value)
    ensures body.status.Undefined? ==> r.status == i.status
    ensures body.status.Null? ==> r.status.None?
    ensures body.status.Given? ==> r.status == Some(body.status.value)
    ensures body.assignedTo.Undefined? ==> r.assignedTo == i.assignedTo
    ensures body.assignedTo.Null? ==> r.assignedTo.None?
    ensures body.assignedTo.Given? ==> r.assignedTo == Some(body.assignedTo.value)
    ensures body.dueDate.Undefined? ==> r.dueDate == i.dueDate
    ensures body.dueDate.Null? ==> r.dueDate.None?
    ensures body.dueDate.Given? ==> r.dueDate == Some(body.dueDate.value)
  {
    i.(title := Patch(body.title, i.title),
       description := Patch(body.description, i.description),
       severity := Patch(body.severity, i.severity),
       priority := Patch(body.priority, i.priority),
       status := Patch(body.status, i.status),
       assignedTo := Patch(body.assignedTo, i.assignedTo),
       dueDate := Patch(body.dueDate, i.dueDate))
  }

  /** One `column = ?` of the SET list with its parameter. */
  datatype Assignment =
    | SetTitle(title: Option<string>)
    | SetDescription(description: Option<string>)
    | SetSeverity(severity: Option<string>)
    | SetPriority(priority: Option<string>)
    | SetStatus(status: Option<string>)
    | SetAssignee(assignee: Option<int>)
    | SetDueDate(dueDate: Option<int>)

  function Apply(i: Issue, a: Assignment): Issue {
    match a
    case SetTitle(v) => i.(title := v)
    case SetDescription(v) => i.(description := v)
    case SetSeverity(v) => i.(severity := v)
    case SetPriority(v) => i.(priority := v)
    case SetStatus(v) => i.(status := v)
    case SetAssignee(v) => i.(assignedTo := v)
    case SetDueDate(v) => i.(dueDate := v)
  }

  /** `UPDATE issues SET a1, a2, ...`: the assignments applied left to right. */
  function ApplyAll(i: Issue, updates: seq<Assignment>): (r: Issue)
    ensures r.id == i.id && r.createdBy == i.createdBy
    ensures r.createdAt == i.createdAt && r.updatedAt == i.updatedAt
    decreases |updates|
  {
    if updates == [] then i
    else Apply(ApplyAll(i, updates[..|updates| - 1]), updates[|updates| - 1])
  }

  lemma ApplySnoc(updates: seq<Assignment>, a: Assignment)
    ensures forall i :: ApplyAll(i, updates + [a]) == Apply(ApplyAll(i, updates), a)
  {
    assert (updates + [a])[..|updates|] == updates;
  }

  /** The value an update parameter binds: a present field, or SQL NULL. */
  function Bound<T>(a: Arg<T>): Option<T>
    requires !a.Undefined?
  {
    if a.Given? then Some(a.value) else None
  }

  /** The row with only the first `n` of the seven body fields (in the
      order the handler pushes them) written. */
  function PatchedThrough(i: Issue, body: IssuePatch, n: nat): Issue {
    i.(title := if n >= 1 then Patch(body.title, i.title) else i.title,
       description := if n >= 2 then Patch(body.description, i.description) else i.description,
       severity := if n >= 3 then Patch(body.severity, i.severity) else i.severity,
       priority := if n >= 4 then Patch(body.priority, i.priority) else i.priority,
       status := if n >= 5 then Patch(body.status, i.status) else i.status,
       assignedTo := if n >= 6 then Patch(body.assignedTo, i.assignedTo) else i.assignedTo,
       dueDate := if n >= 7 then Patch(body.dueDate, i.dueDate) else i.dueDate)
  }

  /** The field pushed as the `n`-th, when the body does not omit it. */
  function FieldAssignment(body: IssuePatch, n: nat): Option<Assignment>
    requires 1 <= n <= 7
  {
    match n
    case 1 => if body.title.Undefined? then None else Some(SetTitle(Bound(body.title)))
    case 2 => if body.description.Undefined? then None else Some(SetDescription(Bound(body.description)))
    case 3 => if body.severity.Undefined? then None else Some(SetSeverity(Bound(body.severity)))
    case 4 => if body.priority.Undefined? then None else Some(SetPriority(Bound(body.priority)))
    case 5 => if body.status.Undefined? then None else Some(SetStatus(Bound(body.status)))
    case 6 => if body.assignedTo.Undefined? then None else Some(SetAssignee(Bound(body.assignedTo)))
    case _ => if body.dueDate.Undefined? then None else Some(SetDueDate(Bound(body.dueDate)))
  }

  /** Pushing the `n`-th field, if present, extends a SET list that writes
      the first `n - 1` fields to one that writes the first `n`. */
  lemma PushField(updates: seq<Assignment>, body: IssuePatch, n: nat)
    requires 1 <= n <= 7
    requires forall i :: ApplyAll(i, updates) == PatchedThrough(i, body, n - 1)
    ensures var next := if FieldAssignment(body, n).Some? then updates + [FieldAssignment(body, n).value] else updates;
      forall i :: ApplyAll(i, next) == PatchedThrough(i, body, n)
  {
    var f := FieldAssignment(body, n);
    if f.Some? {
      ApplySnoc(updates, f.value);
    }
    forall i
      ensures ApplyAll(i, if f.Some? then updates + [f.value] else updates) == PatchedThrough(i, body, n)
    {
      if f.Some? {
        assert ApplyAll(i, updates + [f.value]) == Apply(PatchedThrough(i, body, n - 1), f.value);
      }
    }
  }

  /** Pushes one `column = ?` per field that is not undefined; the resulting
      SET list turns any row into its patched form, and it is empty exactly
      when the body names no field. */
  method IssueAssignments(body: IssuePatch) returns (updates: seq<Assignment>)
    ensures |updates| == 0 <==> NothingToUpdate(body)
    ensures forall i :: ApplyAll(i, updates) == Patched(i, body)
  {
    updates := [];
    PushField(updates, body, 1);
    if !body.title.Undefined? {
      updates := updates + [SetTitle(Bound(body.title))];
    }
    PushField(updates, body, 2);
    if !body.description.Undefined? {
      updates := updates + [SetDescription(Bound(body.description))];
    }
    PushField(updates, body, 3);
    if !body.severity.Undefined? {
      updates := updates + [SetSeverity(Bound(body.severity))];
    }
    PushField(updates, body, 4);
    if !body.priority.Undefined? {
      updates := updates + [SetPriority(Bound(body.priority))];
    }
    PushField(updates, body, 5);
    if !body.status.Undefined? {
      updates := updates + [SetStatus(Bound(body.status))];
    }
    PushField(updates, body, 6);
    if !body.assignedTo.Undefined? {
      updates := updates + [SetAssignee(Bound(body.assignedTo))];
    }
    PushField(updates, body, 7);
    if !body.dueDate.Undefined? {
      updates := updates + [SetDueDate(Bound(body.dueDate))];
    }
    assert forall i :: PatchedThrough(i, body, 7) == Patched(i, body);
  }

  /** PUT /issues/:id. */
  method UpdateIssue(db: Db, id: int, body: IssuePatch) returns (r: Response<IssueView>)
    requires db.Valid()
    modifies db
    ensures db.Valid()
    ensures UpdateRejection(old(db.users), old(db.issues), id, body).Some? ==>
      var e := UpdateRejection(old(db.users), old(db.issues), id, body).value;
      r == Err(e.code, e.message) && unchanged(db)
    ensures UpdateRejection(old(db.users), old(db.issues), id, body).None? ==>
      && db.issues == old(db.issues)[id := Patched(old(db.issues)[id], body)]
      && db.users == old(db.users)
      && db.nextIssueId == old(db.nextIssueId) && db.nextUserId == old(db.nextUserId)
      && r == Ok(200, ViewOf(db.users, db.issues[id]))
  {
    if id !in db.issues {
      return Err(404, "Issue not found");
    }
    if Truthy(body.status) && body.status.value !in ValidStatuses {
      return Err(400, "Invalid status");
    }
    if Truthy(body.severity) && body.severity.value !in ValidSeverities {
      return Err(400, "Invalid severity");
    }
    if Truthy(body.priority) && body.priority.value !in ValidPriorities {
      return Err(400, "Invalid priority");
    }
    if body.assignedTo.Given? && !IsActiveUser(db.users, body.assignedTo.value) {
      return Err(404, "Assigned user not found");
    }
    var updates := IssueAssignments(body);
    if |updates| == 0 {
      return Err(400, "No fields to update");
    }
    db.issues := db.issues[id := ApplyAll(db.issues[id], updates)];
    r := Ok(200, ViewOf(db.users, db.issues[id]));
  }

  /** The guards of changeIssueStatus: the status is checked before the
      issue is looked up. */
  function StatusRejection(issues: map<int, Issue>, id: int, status: Arg<string>): (r: Option<Rejection>)
    ensures r.None? <==> Truthy(status) && status.value in ValidStatuses && id in issues
    ensures !(Truthy(status) && status.value in ValidStatuses) ==> r == Some(Rejection(400, "Invalid status"))
    ensures Truthy(status) && status.value in ValidStatuses && id !in issues ==>
      r == Some(Rejection(404, "Issue not found"))
  {
    if !Truthy(status) || status.value !in ValidStatuses then Some(Rejection(400, "Invalid status"))
    else if id !in issues then Some(Rejection(404, "Issue not found"))
    else None
  }

  /** PATCH /issues/:id/status. */
  method ChangeIssueStatus(db: Db, id: int, status: Arg<string>) returns (r: Response<IssueView>)
    requires db.Valid()
    modifies db
    ensures db.Valid()
    ensures StatusRejection(old(db.issues), id, status).Some? ==>
      var e := StatusRejection(old(db.issues), id, status).value;
      r == Err(e.code, e.message) && unchanged(db)
    ensures StatusRejection(old(db.issues), id, status).None? ==>
      && db.issues == old(db.issues)[id := old(db.issues)[id].(status := Some(status.value))]
      && db.users == old(db.users)
      && db.nextIssueId == old(db.nextIssueId) && db.nextUserId == old(db.nextUserId)
      && r == Ok(200, ViewOf(db.users, db.issues[id]))
  {
    if !Truthy(status) || status.value !in ValidStatuses {
      return Err(400, "Invalid status");
    }
    if id !in db.issues {
      return Err(404, "Issue not found");
    }
    db.issues := db.issues[id := db.issues[id].(status := Some(status.value))];
    r := Ok(200, ViewOf(db.users, db.issues[id]));
  }

  /** A status change is the update that names only the status. */
  lemma StatusChangeIsUpdate(users: map<int, User>, issues: map<int, Issue>, id: int, status: string)
    requires id in issues
    ensures var body := IssuePatch(Undefined, Undefined, Undefined, Undefined, Given(status), Undefined, Undefined);
      && (StatusRejection(issues, id, Given(status)).None? ==> UpdateRejection(users, issues, id, body).None?)
      && Patched(issues[id], body) == issues[id].(status := Some(status))
  {
  }

  /** DELETE /issues/:id. */
  method DeleteIssue(db: Db, id: int) returns (r: Response<string>)
    requires db.Valid()
    modifies db
    ensures db.Valid()
    ensures id !in old(db.issues) ==> r == Err(404, "Issue not found") && unchanged(db)
    ensures id in old(db.issues) ==>
      && db.issues == old(db.issues) - {id}
      && |db.issues| == |old(db.issues)| - 1
      && db.users == old(db.users)
      && db.nextIssueId == old(db.nextIssueId) && db.nextUserId == old(db.nextUserId)
      && r == Ok(200, "Issue deleted successfully")
  {
    if id !in db.issues {
      return Err(404, "Issue not found");
    }
    db.issues := db.issues - {id};
    r := Ok(200, "Issue deleted successfully");
  }
}
