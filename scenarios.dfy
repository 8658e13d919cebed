/** Requests in sequence: what one handler leaves in the tables decides
    what the next one answers. */
module Scenarios {
  import opened Common
  import opened Tables
  import opened IssueController
  import opened AuthController
  import opened UserController

  /** A fresh invitation, accepted within seven days, passes every guard
      of acceptInvitation and selects the invited row. */
  lemma FreshInvitationIsAccepted(users: map<int, User>, next: int, body: Invite, token: string, password: string,
                                  inviter: int, now: int, later: int)
    requires UsersWellFormed(users, next) && TokenUnused(users, token)
    requires InviteRejection(users, body).None?
    requires token != "" && |password| >= MinPasswordLength
    requires now <= later <= now + InvitationDays * DaySeconds
    ensures var after := users[next := InvitedUser(body, next, token, inviter, now)];
      && UsersWellFormed(after, next + 1)
      && InvitationTarget(after, token) == Some(next)
      && AcceptRejection(after, Given(token), Given(password), later).None?
  {
    var after := users[next := InvitedUser(body, next, token, inviter, now)];
    InvitedUserHoldsToken(users, next, body, token, inviter, now);
    assert after[next].resetToken == Some(token);
    assert InvitationTarget(after, token) == Some(next);
  }

  /** An admin invites a new email; the invitee accepts before the seven
      days run out; the invitee can then log in with the chosen password,
      and the invitation link no longer works. */
  method InviteAcceptLogin(db: Db, admin: Caller, email: string, token: string, password: string, salt: string,
                           crypto: Crypto, env: Env, mail: MailOutcome, now: int, later: int)
    requires IsAdmin(admin) && db.Valid() && TokenUnused(db.users, token)
    requires email != "" && token != "" && |password| >= MinPasswordLength
    requires forall k :: k in db.users ==> db.users[k].email != email
    requires now <= later <= now + InvitationDays * DaySeconds
    requires crypto.bcryptHash(password, salt) != ""
    requires crypto.bcryptCompare(password, crypto.bcryptHash(password, salt))
    modifies db
    ensures db.Valid()
    ensures Login(db.users, Given(email), Given(password), crypto).Ok?
    ensures AcceptRejection(db.users, Given(token), Given(password), later) ==
      Some(Rejection(400, "Invalid or expired invitation token"))
  {
    var body := Invite(Given(email), Undefined, Undefined, Undefined);
    var id := db.nextUserId;
    var before := db.users;
    assert InviteRejection(before, body).None?;
    FreshInvitationIsAccepted(before, id, body, token, password, admin.id, now, later);
    var invited := InviteUser(db, admin, body, token, env, mail, now);
    var invitee := db.users;
    var hash := crypto.bcryptHash(password, salt);
    var accepted := AcceptInvitation(db, Given(token), Given(password), salt, crypto, later);
    assert db.users == invitee[id := Activated(invitee[id], hash)];
    LoginAfterAccept(invitee, id + 1, id, password, salt, crypto);
    SecondAcceptFails(invitee, id + 1, id, token, password, hash, later);
  }

  /** Closing an issue with a full update and reopening it with a status
      change leaves every other column as the update wrote it. */
  method CloseThenReopen(db: Db, id: int, body: IssuePatch)
    requires db.Valid() && id in db.issues
    requires body.status == Given("closed")
    requires UpdateRejection(db.users, db.issues, id, body).None?
    modifies db
    ensures db.Valid()
    ensures db.issues == old(db.issues)[id := Patched(old(db.issues)[id], body).(status := Some("open"))]
  {
    var updated := UpdateIssue(db, id, body);
    var reopened := ChangeIssueStatus(db, id, Given("open"));
  }
}
