/** The two tables the controllers read and write, `users` and `issues`,
    each a map from the auto-increment id to the row, and the lookups the
    handlers' SELECT statements perform on them. */
module Tables {
  import opened Common

  /** A row of `users`; `role` is admin or user and `status` invited, active
      or inactive. `resetToken` holds both password-reset and invitation
      tokens. */
  datatype User = User(
    id: int,
    email: string,
    passwordHash: Option<string>,
    fname: Option<string>,
    lname: Option<string>,
    role: string,
    status: string,
    resetToken: Option<string>,
    resetTokenExpiry: Option<int>,
    invitedBy: Option<int>,
    invitedAt: Option<int>,
    createdAt: int)

  /** A row of `issues`. The text and enumeration columns are nullable here
      because an update writes whatever value it is given. */
  datatype Issue = Issue(
    id: int,
    title: Option<string>,
    description: Option<string>,
    severity: Option<string>,
    priority: Option<string>,
    status: Option<string>,
    createdBy: int,
    assignedTo: Option<int>,
    dueDate: Option<int>,
    createdAt: int,
    updatedAt: int)

  /** The UNIQUE constraint on `users.email`. */
  ghost predicate EmailsUnique(users: map<int, User>) {
    forall a, b :: a in users && b in users && users[a].email == users[b].email ==> a == b
  }

  /** Tokens are drawn fresh from a secure random source, so no two users
      hold the same non-null token. */
  ghost predicate TokensUnique(users: map<int, User>) {
    forall a, b :: a in users && b in users && users[a].resetToken.Some? && users[a].resetToken == users[b].resetToken ==> a == b
  }

  /** No user holds `token`: what a freshly generated token satisfies. */
  ghost predicate TokenUnused(users: map<int, User>, token: string) {
    forall k :: k in users ==> users[k].resetToken != Some(token)
  }

  ghost predicate UsersWellFormed(users: map<int, User>, next: int) {
    && next >= 1
    && (forall k :: k in users ==> 1 <= k < next && users[k].id == k)
    && EmailsUnique(users)
    && TokensUnique(users)
  }

  ghost predicate IssuesWellFormed(issues: map<int, Issue>, next: int) {
    && next >= 1
    && (forall k :: k in issues ==> 1 <= k < next && issues[k].id == k)
  }

  /** The database: both tables and their AUTO_INCREMENT counters. */
  class Db {
    var users: map<int, User>
    var issues: map<int, Issue>
    var nextUserId: int
    var nextIssueId: int

    ghost predicate Valid()
      reads this
    {
      UsersWellFormed(users, nextUserId) && IssuesWellFormed(issues, nextIssueId)
    }

    constructor ()
      ensures Valid()
      ensures users == map[] && issues == map[]
      ensures nextUserId == 1 && nextIssueId == 1
    {
      users, issues := map[], map[];
      nextUserId, nextIssueId := 1, 1;
    }
  }

  /** The rows of a table with ids in [lo, hi), in id order: the order
      in which the database scans them. */
  function Rows<T>(m: map<int, T>, lo: int, hi: int): seq<T>
    decreases hi - lo
  {
    if lo >= hi then []
    else (if lo in m then [m[lo]] else []) + Rows(m, lo + 1, hi)
  }

  lemma {:induction false} RowsMembers<T>(m: map<int, T>, lo: int, hi: int)
    ensures forall x :: x in Rows(m, lo, hi) <==> exists k :: lo <= k < hi && k in m && m[k] == x
    decreases hi - lo
  {
    if lo < hi {
      RowsMembers(m, lo + 1, hi);
    }
  }

  /** The rows of `issues` are exactly the table's records. */
  lemma IssueRowsExact(issues: map<int, Issue>, next: int)
    requires IssuesWellFormed(issues, next)
    ensures forall x :: x in Rows(issues, 1, next) <==> x.id in issues && issues[x.id] == x
  {
    RowsMembers(issues, 1, next);
  }

  /** The rows of `users` are exactly the table's records. */
  lemma UserRowsExact(users: map<int, User>, next: int)
    requires UsersWellFormed(users, next)
    ensures forall x :: x in Rows(users, 1, next) <==> x.id in users && users[x.id] == x
  {
    RowsMembers(users, 1, next);
  }

  /** The one user satisfying `p`, if any: a SELECT on a column whose
      values identify at most one row, followed by `rows[0]`. */
  function FindUser(users: map<int, User>, p: User -> bool): (r: Option<int>)
    requires forall a, b :: a in users && b in users && p(users[a]) && p(users[b]) ==> a == b
    ensures r.Some? ==> r.value in users && p(users[r.value])
    ensures r.None? <==> forall k :: k in users ==> !p(users[k])
  {
    if exists k :: k in users && p(users[k]) then
      var k :| k in users && p(users[k]);
      Some(k)
    else None
  }

  /** `SELECT ... FROM users WHERE email = ?`. */
  function UserByEmail(users: map<int, User>, email: string): (r: Option<int>)
    requires EmailsUnique(users)
    ensures r.Some? ==> r.value in users && users[r.value].email == email
    ensures r.None? <==> forall k :: k in users ==> users[k].email != email
  {
    FindUser(users, (u: User) => u.email == email)
  }

  /** `SELECT id FROM users WHERE id = ? AND status = "active"`. */
  predicate IsActiveUser(users: map<int, User>, id: int) {
    id in users && users[id].status == "active"
  }

  /** The email a LEFT JOIN on a user id yields: null for a missing user. */
  function EmailOf(users: map<int, User>, id: int): (r: Option<string>)
    ensures r.Some? <==> id in users
    ensures id in users ==> r.value == users[id].email
  {
    if id in users then Some(users[id].email) else None
  }
}
