/** The user-administration handlers: inviting a user, listing and fetching
    users, updating and deleting them. Invite, update and delete sit behind
    the admin-only middleware, which is a precondition here. */
module UserController {
  import opened Common
  import opened Sequences
  import opened Paging
  import opened Tables

  /** The signed-in user, as the authentication middleware attaches it. */
  datatype Caller = Caller(id: int, role: string)

  predicate IsAdmin(c: Caller) {
    c.role == "admin"
  }

  const ValidRoles: seq<string> := ["admin", "user"]
  const ValidUserStatuses: seq<string> := ["active", "invited", "inactive"]
  const InvitationDays: int := 7

  /** The deployment settings the invitation link is built from. */
  datatype Env = Env(environment: string, frontendUrl: string, frontendUrlProd: string)

  function FrontendUrl(env: Env): (url: string)
    ensures env.environment == "prod" ==> url == env.frontendUrlProd
    ensures env.environment != "prod" ==> url == env.frontendUrl
  {
    if env.environment == "prod" then env.frontendUrlProd else env.frontendUrl
  }

  function InvitationLink(env: Env, token: string): (link: string)
    ensures |link| == |FrontendUrl(env)| + |"/accept-invitation?token="| + |token|
    ensures link[..|FrontendUrl(env)|] == FrontendUrl(env)
    ensures link[|FrontendUrl(env)|..|link| - |token|] == "/accept-invitation?token="
    ensures link[|link| - |token|..] == token
  {
    FrontendUrl(env) + "/accept-invitation?token=" + token
  }

  /** How the invitation email went: delivered, or not, with the mailer's
      error text (a timeout or a rejected send is reported as "Email timeout"). */
  datatype MailOutcome = Delivered | Undelivered(error: string)

  /** The body of POST /users/invite. */
  datatype Invite = Invite(email: Arg<string>, fname: Arg<string>, lname: Arg<string>, role: Arg<string>)

  /** `role = 'user'` in the destructuring: only an omitted role defaults. */
  function InvitedRole(body: Invite): Arg<string> {
    if body.role.Undefined? then Given("user") else body.role
  }

  predicate RoleAllowed(role: Arg<string>) {
    role.Given? && role.value in ValidRoles
  }

  /** The guards of inviteUser, in order: an email, an allowed role, and an
      email no account has; a taken email is answered according to whether
      that account is still invited. */
  function InviteRejection(users: map<int, User>, body: Invite): (r: Option<Rejection>)
    requires EmailsUnique(users)
    ensures r.None? <==>
      Truthy(body.email) && RoleAllowed(InvitedRole(body)) && forall k :: k in users ==> users[k].email != body.email.value
    ensures !Truthy(body.email) ==> r == Some(Rejection(400, "Email is required"))
    ensures (Truthy(body.email) && !RoleAllowed(InvitedRole(body))) ==> r == Some(Rejection(400, "Invalid role"))
    ensures Truthy(body.email) && body.role.Undefined? ==> r.None? || r.value.code == 409
    ensures Truthy(body.email) && RoleAllowed(InvitedRole(body)) ==>
      forall k :: k in users && users[k].email == body.email.value ==>
        r == Some(Rejection(409, if users[k].status == "invited" then "Invitation already sent" else "User already exists"))
  {
    if !Truthy(body.email) then Some(Rejection(400, "Email is required"))
    else if !RoleAllowed(InvitedRole(body)) then Some(Rejection(400, "Invalid role"))
    else
      var existing := UserByEmail(users, body.email.value);
      if existing.None? then None
      else if users[existing.value].status == "invited" then Some(Rejection(409, "Invitation already sent"))
      else Some(Rejection(409, "User already exists"))
  }

  /** The row the INSERT writes: no password, invited, holding the token
      for seven days. */
  function InvitedUser(body: Invite, id: int, token: string, inviter: int, now: int): (u: User)
    requires body.email.Given? && InvitedRole(body).Given?
    ensures u.id == id && u.email == body.email.value && u.role == InvitedRole(body).value
    ensures u.status == "invited" && u.passwordHash.None?
    ensures u.resetToken == Some(token) && u.resetTokenExpiry == Some(now + InvitationDays * DaySeconds)
    ensures u.invitedBy == Some(inviter) && u.invitedAt == Some(now) && u.createdAt == now
    ensures (u.fname.Some? <==> Truthy(body.fname)) && (u.lname.Some? <==> Truthy(body.lname))
    ensures Truthy(body.fname) ==> u.fname == Some(body.fname.value)
    ensures Truthy(body.lname) ==> u.lname == Some(body.lname.value)
  {
    User(id, body.email.value, None, OrNull(body.fname), OrNull(body.lname), InvitedRole(body).value,
      "invited", Some(token), Some(now + InvitationDays * DaySeconds), Some(inviter), Some(now), now)
  }

  /** The 201 body of an invitation. */
  datatype Invitation = Invitation(message: string, warning: Option<string>, invitationLink: string)

  /** The link is returned whether or not the email went out; a warning
      appears exactly when it did not. */
  function InvitationReply(env: Env, token: string, mail: MailOutcome): (r: Invitation)
    ensures r.invitationLink == InvitationLink(env, token)
    ensures r.warning.Some? <==> mail.Undelivered?
    ensures mail.Undelivered? ==> r.warning.value == (if mail.error == "" then "Email service error" else mail.error)
    ensures r.message == (if mail.Delivered? then "Invitation sent successfully"
                          else "User invited successfully, but email could not be sent")
  {
    if mail.Delivered? then Invitation("Invitation sent successfully", None, InvitationLink(env, token))
    else Invitation("User invited successfully, but email could not be sent",
      Some(if mail.error == "" then "Email service error" else mail.error), InvitationLink(env, token))
  }

  /** POST /users/invite by the admin `caller` at time `now`. `token` is the
      fresh invitation token and `mail` the outcome of sending it. */
  method InviteUser(db: Db, caller: Caller, body: Invite, token: string, env: Env, mail: MailOutcome, now: int)
    returns (r: Response<Invitation>)
    requires IsAdmin(caller)
    requires db.Valid() && TokenUnused(db.users, token)
    modifies db
    ensures db.Valid()
    ensures InviteRejection(old(db.users), body).Some? ==>
      var e := InviteRejection(old(db.users), body).value;
      r == Err(e.code, e.message) && unchanged(db)
    ensures InviteRejection(old(db.users), body).None? ==>
      var id := old(db.nextUserId);
      && id !in old(db.users)
      && db.users == old(db.users)[id := InvitedUser(body, id, token, caller.id, now)]
      && db.nextUserId == id + 1
      && db.issues == old(db.issues) && db.nextIssueId == old(db.nextIssueId)
      && r == Ok(201, InvitationReply(env, token, mail))
  {
    if !Truthy(body.email) {
      return Err(400, "Email is required");
    }
    var role := InvitedRole(body);
    if !RoleAllowed(role) {
      return Err(400, "Invalid role");
    }
    var existing := UserByEmail(db.users, body.email.value);
    if existing.Some? {
      if db.users[existing.value].status == "invited" {
        return Err(409, "Invitation already sent");
      }
      return Err(409, "User already exists");
    }
    var id := db.nextUserId;
    var row := InvitedUser(body, id, token, caller.id, now);
    InvitedUserHoldsToken(db.users, id, body, token, caller.id, now);
    db.users := db.users[id := row];
    db.nextUserId := id + 1;
    r := Ok(201, InvitationReply(env, token, mail));
  }

  /** A fresh invitation can be accepted: the new row is the one invited
      user holding the token, and its expiry lies seven days ahead. */
  lemma InvitedUserHoldsToken(users: map<int, User>, next: int, body: Invite, token: string, inviter: int, now: int)
    requires UsersWellFormed(users, next) && TokenUnused(users, token)
    requires InviteRejection(users, body).None?
    ensures var after := users[next := InvitedUser(body, next, token, inviter, now)];
      && UsersWellFormed(after, next + 1)
      && (forall k :: k in after && after[k].resetToken == Some(token) ==> k == next)
      && after[next].status == "invited" && after[next].passwordHash.None?
      && after[next].resetTokenExpiry == Some(now + 7 * DaySeconds)
      && after[next].role in ValidRoles
  {
    var after := users[next := InvitedUser(body, next, token, inviter, now)];
    assert forall k :: k in after && k != next ==> k in users && after[k] == users[k];
  }

  // ---- listing ----

  /** The columns the user endpoints select: never the hash or the token. */
  datatype UserSummary = UserSummary(
    id: int, email: string, fname: Option<string>, lname: Option<string>,
    role: string, status: string, createdAt: int)

  function Summary(u: User): UserSummary {
    UserSummary(u.id, u.email, u.fname, u.lname, u.role, u.status, u.createdAt)
  }

  function Summaries(s: seq<User>): (r: seq<UserSummary>)
    ensures |r| == |s|
    ensures forall k :: 0 <= k < |s| ==> r[k] == Summary(s[k])
  {
    if s == [] then [] else [Summary(s[0])] + Summaries(s[1..])
  }

  /** `email LIKE '%search%'`, with an empty search keeping every row. */
  predicate EmailMatches(u: User, search: string) {
    search != "" ==> Contains(u.email, search)
  }

  function UserMatches(rows: seq<User>, search: string): (r: seq<User>)
    ensures forall x :: x in r <==> x in rows && EmailMatches(x, search)
  {
    Filter(rows, (u: User) => EmailMatches(u, search))
  }

  /** `ORDER BY created_at DESC`. */
  function NewestFirst(): (User, User) -> bool {
    (a: User, b: User) => a.createdAt >= b.createdAt
  }

  lemma NewestFirstIsTotalPreorder()
    ensures TotalPreorder(NewestFirst())
  {
  }

  /** The users in `ORDER BY created_at DESC` order; users created at the
      same time keep their table order. */
  function SortNewestFirst(rows: seq<User>): (r: seq<User>)
    ensures SortedBy(r, NewestFirst())
    ensures multiset(r) == multiset(rows)
    ensures forall x :: x in r <==> x in rows
  {
    NewestFirstIsTotalPreorder();
    SortedMembers(rows, NewestFirst());
    InsertionSort(rows, NewestFirst())
  }

  datatype UserPage = UserPage(page: int, limit: int, total: int, pages: int)

  datatype UserList = UserList(users: seq<UserSummary>, pagination: UserPage)

  /** GET /users. */
  function GetUsers(users: map<int, User>, next: int, page: Option<int>, limit: Option<int>, search: string)
    : (r: Response<UserList>)
    requires UsersWellFormed(users, next)
    ensures Paginate(page, limit).None? <==> r == Err(400, "Invalid pagination parameters")
    ensures r.Ok? ==> var p := Paginate(page, limit).value;
      && r.code == 200
      && r.value.pagination.page == p.page && r.value.pagination.limit == p.limit
      && r.value.users == Summaries(ListedUsers(users, next, search, p.offset, p.limit))
      && |r.value.users| <= p.limit
      && (forall k :: 0 <= k < |r.value.users| ==>
            var s := r.value.users[k];
            s.id in users && s == Summary(users[s.id]) && EmailMatches(users[s.id], search))
      && (forall j, k :: 0 <= j < k < |r.value.users| ==> r.value.users[j].createdAt >= r.value.users[k].createdAt)
      && r.value.pagination.total == |UserMatches(Rows(users, 1, next), search)|
      && r.value.pagination.pages == PageCount(r.value.pagination.total, p.limit)
      && r.value.pagination.pages * p.limit >= r.value.pagination.total
  {
    var paging := Paginate(page, limit);
    if paging.None? then Err(400, "Invalid pagination parameters")
    else
      var p := paging.value;
      var matching := UserMatches(Rows(users, 1, next), search);
      var shown := ListedUsers(users, next, search, p.offset, p.limit);
      Ok(200, UserList(Summaries(shown), UserPage(p.page, p.limit, |matching|, PageCount(|matching|, p.limit))))
  }

  /** The users one page shows (`LIMIT limit OFFSET offset`): table rows
      matching the search, newest first. */
  function ListedUsers(users: map<int, User>, next: int, search: string, offset: int, limit: int)
    : (shown: seq<User>)
    requires UsersWellFormed(users, next)
    requires offset >= 0 && limit >= 0
    ensures var sorted := SortNewestFirst(UserMatches(Rows(users, 1, next), search));
      && |shown| == (if offset >= |sorted| then 0 else if offset + limit <= |sorted| then limit else |sorted| - offset)
      && (forall k :: 0 <= k < |shown| ==> shown[k] == sorted[offset + k])
    ensures |shown| <= limit
    ensures forall k :: 0 <= k < |shown| ==>
      shown[k].id in users && users[shown[k].id] == shown[k] && EmailMatches(shown[k], search)
    ensures forall j, k :: 0 <= j < k < |shown| ==> shown[j].createdAt >= shown[k].createdAt
  {
    var matching := UserMatches(Rows(users, 1, next), search);
    var sorted := SortNewestFirst(matching);
    var shown := Window(sorted, offset, limit);
    UserCountExact(users, next, search);
    forall k | 0 <= k < |shown|
      ensures shown[k].id in users && users[shown[k].id] == shown[k] && EmailMatches(shown[k], search)
    {
      assert shown[k] == sorted[offset + k];
      assert shown[k] in matching;
    }
    forall j, k | 0 <= j < k < |shown|
      ensures shown[j].createdAt >= shown[k].createdAt
    {
      assert NewestFirst()(sorted[offset + j], sorted[offset + k]);
    }
    shown
  }

  /** Every account whose email matches is counted, and none other. */
  lemma UserCountExact(users: map<int, User>, next: int, search: string)
    requires UsersWellFormed(users, next)
    ensures forall u :: u in UserMatches(Rows(users, 1, next), search) <==>
      u.id in users && users[u.id] == u && EmailMatches(u, search)
  {
    UserRowsExact(users, next);
  }

  /** GET /users/:id. */
  method GetUserById(db: Db, id: int) returns (r: Response<UserSummary>)
    ensures id in db.users ==> r == Ok(200, Summary(db.users[id]))
    ensures id !in db.users ==> r == Err(404, "User not found")
  {
    if id !in db.users {
      return Err(404, "User not found");
    }
    r := Ok(200, Summary(db.users[id]));
  }

  // ---- update ----

  /** The body of PUT /users/:id. */
  datatype UserPatch = UserPatch(fname: Arg<string>, lname: Arg<string>, role: Arg<string>, status: Arg<string>)

  /** Whether the request would change the caller's own role or status. */
  predicate TouchesOwnRole(caller: Caller, id: int, body: UserPatch) {
    id == caller.id && !(body.role.Undefined? && body.status.Undefined?)
  }

  /** A role that is present must be one of the allowed roles. */
  predicate PatchRoleOk(body: UserPatch) {
    !body.role.Undefined? ==> RoleAllowed(body.role)
  }

  /** A status that is present must be one of the allowed statuses. */
  predicate PatchStatusOk(body: UserPatch) {
    !body.status.Undefined? ==> body.status.Given? && body.status.value in ValidUserStatuses
  }

  predicate NoUserFields(body: UserPatch) {
    body.fname.Undefined? && body.lname.Undefined? && body.role.Undefined? && body.status.Undefined?
  }

  /** The guards of updateUser, in order: the user exists; an admin may not
      change the role or status of their own account; a given role or status
      must be allowed; and some field must be present. */
  function UserUpdateRejection(users: map<int, User>, caller: Caller, id: int, body: UserPatch): (r: Option<Rejection>)
    ensures r.None? <==>
      id in users && !TouchesOwnRole(caller, id, body) && PatchRoleOk(body) && PatchStatusOk(body)
      && !NoUserFields(body)
    ensures id !in users ==> r == Some(Rejection(404, "User not found"))
    ensures (id in users && TouchesOwnRole(caller, id, body)) ==>
      r == Some(Rejection(400, "Cannot modify your own role or status"))
    ensures (id in users && !TouchesOwnRole(caller, id, body) && !PatchRoleOk(body)) ==>
      r == Some(Rejection(400, "Invalid role"))
    ensures (id in users && !TouchesOwnRole(caller, id, body) && PatchRoleOk(body) && !PatchStatusOk(body)) ==>
      r == Some(Rejection(400, "Invalid status"))
    ensures (id in users && !TouchesOwnRole(caller, id, body) && PatchRoleOk(body) && PatchStatusOk(body)
      && NoUserFields(body)) ==>
      r == Some(Rejection(400, "No fields to update"))
  {
    if id !in users then Some(Rejection(404, "User not found"))
    else if TouchesOwnRole(caller, id, body) then Some(Rejection(400, "Cannot modify your own role or status"))
    else if !PatchRoleOk(body) then Some(Rejection(400, "Invalid role"))
    else if !PatchStatusOk(body) then Some(Rejection(400, "Invalid status"))
    else if NoUserFields(body) then Some(Rejection(400, "No fields to update"))
    else None
  }

  /** The row after the update: names are written with `|| null`, role and
      status as given; the email, hash and token are never touched. */
  function UserPatched(u: User, body: UserPatch): (r: User)
    ensures r.id == u.id && r.email == u.email && r.passwordHash == u.passwordHash
    ensures r.resetToken == u.resetToken && r.resetTokenExpiry == u.resetTokenExpiry
    ensures r.createdAt == u.createdAt && r.invitedBy == u.invitedBy && r.invitedAt == u.invitedAt
    ensures body.fname.Undefined? ==> r.fname == u.fname
    ensures !body.fname.Undefined? ==> (r.fname.Some? <==> Truthy(body.fname)) && (Truthy(body.fname) ==> r.fname == Some(body.fname.value))
    ensures body.lname.Undefined? ==> r.lname == u.lname
    ensures !body.lname.Undefined? ==> (r.lname.Some? <==> Truthy(body.lname)) && (Truthy(body.lname) ==> r.lname == Some(body.lname.value))
    ensures body.role.Given? ==> r.role == body.role.value
    ensures !body.role.Given? ==> r.role == u.role
    ensures body.status.Given? ==> r.status == body.status.value
    ensures !body.status.Given? ==> r.status == u.status
  {
    u.(fname := if body.fname.Undefined? then u.fname else OrNull(body.fname),
       lname := if body.lname.Undefined? then u.lname else OrNull(body.lname),
       role := if body.role.Given? then body.role.value else u.role,
       status := if body.status.Given? then body.status.value else u.status)
  }

  /** PUT /users/:id by the admin `caller`. The SET list is built field by
      field; a bad role or status aborts the request before anything is
      written. */
  method UpdateUser(db: Db, caller: Caller, id: int, body: UserPatch) returns (r: Response<string>)
    requires IsAdmin(caller)
    requires db.Valid()
    modifies db
    ensures db.Valid()
    ensures UserUpdateRejection(old(db.users), caller, id, body).Some? ==>
      var e := UserUpdateRejection(old(db.users), caller, id, body).value;
      r == Err(e.code, e.message) && unchanged(db)
    ensures UserUpdateRejection(old(db.users), caller, id, body).None? ==>
      && db.users == old(db.users)[id := UserPatched(old(db.users)[id], body)]
      && db.issues == old(db.issues)
      && db.nextUserId == old(db.nextUserId) && db.nextIssueId == old(db.nextIssueId)
      && r == Ok(200, "User updated successfully")
  {
    if id !in db.users {
      return Err(404, "User not found");
    }
    if id == caller.id && !(body.role.Undefined? && body.status.Undefined?) {
      return Err(400, "Cannot modify your own role or status");
    }
    var row := db.users[id];
    var fields := 0;
    if !body.fname.Undefined? {
      row := row.(fname := OrNull(body.fname));
      fields := fields + 1;
    }
    if !body.lname.Undefined? {
      row := row.(lname := OrNull(body.lname));
      fields := fields + 1;
    }
    if !body.role.Undefined? {
      if !RoleAllowed(body.role) {
        return Err(400, "Invalid role");
      }
      row := row.(role := body.role.value);
      fields := fields + 1;
    }
    if !body.status.Undefined? {
      if !(body.status.Given? && body.status.value in ValidUserStatuses) {
        return Err(400, "Invalid status");
      }
      row := row.(status := body.status.value);
      fields := fields + 1;
    }
    if fields == 0 {
      return Err(400, "No fields to update");
    }
    db.users := db.users[id := row];
    r := Ok(200, "User updated successfully");
  }

  /** An admin cannot lock themselves out: a request on their own account
      that names a role or a status is refused, so their role and status stay. */
  lemma OwnRoleAndStatusAreKept(users: map<int, User>, caller: Caller, body: UserPatch)
    requires caller.id in users
    requires UserUpdateRejection(users, caller, caller.id, body).None?
    ensures UserPatched(users[caller.id], body).role == users[caller.id].role
    ensures UserPatched(users[caller.id], body).status == users[caller.id].status
  {
  }

  // ---- delete ----

  /** DELETE /users/:id by the admin `caller`. The self-delete guard comes
      before the existence check. */
  method DeleteUser(db: Db, caller: Caller, id: int) returns (r: Response<string>)
    requires IsAdmin(caller)
    requires db.Valid()
    modifies db
    ensures db.Valid()
    ensures id == caller.id ==> r == Err(400, "Cannot delete your own account") && unchanged(db)
    ensures id != caller.id && id !in old(db.users) ==> r == Err(404, "User not found") && unchanged(db)
    ensures id != caller.id && id in old(db.users) ==>
      && db.users == old(db.users) - {id}
      && db.issues == old(db.issues)
      && db.nextUserId == old(db.nextUserId) && db.nextIssueId == old(db.nextIssueId)
      && r == Ok(200, "User deleted successfully")
  {
    if id == caller.id {
      return Err(400, "Cannot delete your own account");
    }
    if id !in db.users {
      return Err(404, "User not found");
    }
    db.users := db.users - {id};
    r := Ok(200, "User deleted successfully");
  }
}
