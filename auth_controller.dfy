/** The unauthenticated handlers: login, the password-reset pair and the
    acceptance of an invitation. The hashing and signing primitives are
    parameters; the reset token and the salt, which the source draws from a
    secure random source, are supplied by the caller. */
module AuthController {
  import opened Common
  import opened Tables

  /** The primitives the handlers call: the hex SHA-256 digest, bcrypt
      hashing with a salt and bcrypt comparison, and the JWT signer applied
      to a user id. */
  datatype Crypto = Crypto(
    sha256Hex: string -> string,
    bcryptHash: (string, string) -> string,
    bcryptCompare: (string, string) -> bool,
    signSession: int -> string)

  /** The `user` object a successful login or acceptance returns. */
  datatype Profile = Profile(id: int, email: string, fname: Option<string>, lname: Option<string>, role: string)

  datatype Session = Session(token: string, user: Profile)

  datatype Acceptance = Acceptance(token: string, user: Profile, message: string)

  const MinPasswordLength: int := 6

  function ProfileOf(u: User): Profile {
    Profile(u.id, u.email, u.fname, u.lname, u.role)
  }

  /** `value || null` on a nullable column: "" becomes null. */
  function NullIfEmpty(o: Option<string>): (r: Option<string>)
    ensures r.Some? <==> o.Some? && o.value != ""
    ensures r.Some? ==> r == o
  {
    if o.Some? && o.value != "" then o else None
  }

  /** A stored hash matches when it equals the SHA-256 digest of the
      password (accounts seeded with SHA-256) or bcrypt accepts it. */
  predicate PasswordMatches(password: string, hash: string, crypto: Crypto) {
    crypto.sha256Hex(password) == hash || crypto.bcryptCompare(password, hash)
  }

  /** The account may sign in with this password: it is neither invited nor
      deactivated, has a non-empty hash, and the password matches it. */
  predicate MayLogIn(u: User, password: string, crypto: Crypto) {
    && u.status != "invited"
    && u.status != "inactive"
    && u.passwordHash.Some? && u.passwordHash.value != ""
    && PasswordMatches(password, u.passwordHash.value, crypto)
  }

  /** POST /auth/login. */
  function Login(users: map<int, User>, email: Arg<string>, password: Arg<string>, crypto: Crypto): (r: Response<Session>)
    requires EmailsUnique(users)
    ensures !Truthy(email) || !Truthy(password) ==> r == Err(400, "Email and password are required")
    ensures r.Ok? <==>
      Truthy(email) && Truthy(password) &&
      exists k :: k in users && users[k].email == email.value && MayLogIn(users[k], password.value, crypto)
    ensures r.Ok? ==> exists k :: (k in users && users[k].email == email.value &&
      r == Ok(200, Session(crypto.signSession(k), ProfileOf(users[k]))))
    ensures Truthy(email) && Truthy(password) && (forall k :: k in users ==> users[k].email != email.value) ==>
      r == Err(401, "Invalid credentials")
    ensures forall k :: (Truthy(email) && Truthy(password) && k in users && users[k].email == email.value) ==>
      && (users[k].status == "invited" ==> r == Err(403, "Please accept your invitation first"))
      && (users[k].status == "inactive" ==> r == Err(403, "Account is deactivated"))
      && ((users[k].status !in {"invited", "inactive"} && (users[k].passwordHash.None? || users[k].passwordHash.value == "")) ==>
            r == Err(403, "Please set your password first"))
      && ((users[k].status !in {"invited", "inactive"} && users[k].passwordHash.Some? && users[k].passwordHash.value != ""
           && !PasswordMatches(password.value, users[k].passwordHash.value, crypto)) ==>
            r == Err(401, "Invalid credentials"))
      && (MayLogIn(users[k], password.value, crypto) ==> r == Ok(200, Session(crypto.signSession(k), ProfileOf(users[k]))))
  {
    if !Truthy(email) || !Truthy(password) then Err(400, "Email and password are required")
    else
      var found := UserByEmail(users, email.value);
      if found.None? then Err(401, "Invalid credentials")
      else
        var u := users[found.value];
        if u.status == "invited" then Err(403, "Please accept your invitation first")
        else if u.status == "inactive" then Err(403, "Account is deactivated")
        else if u.passwordHash.None? || u.passwordHash.value == "" then Err(403, "Please set your password first")
        else if !PasswordMatches(password.value, u.passwordHash.value, crypto) then Err(401, "Invalid credentials")
        else Ok(200, Session(crypto.signSession(found.value), ProfileOf(u)))
  }

  /** An account whose invitation is pending is told to accept it, whatever
      password is offered. */
  lemma InvitedUserMustAccept(users: map<int, User>, id: int, password: string, crypto: Crypto)
    requires EmailsUnique(users)
    requires id in users && users[id].status == "invited" && users[id].email != "" && password != ""
    ensures Login(users, Given(users[id].email), Given(password), crypto) == Err(403, "Please accept your invitation first")
  {
    var found := UserByEmail(users, users[id].email);
    assert found == Some(id);
  }

  // ---- forgot password ----

  /** The row after forgotPassword: a fresh token valid for one hour, which
      replaces any token the row held, including an invitation token. */
  function WithResetToken(u: User, token: string, now: int): (r: User)
    ensures r.resetToken == Some(token) && r.resetTokenExpiry == Some(now + HourSeconds)
    ensures r.(resetToken := u.resetToken, resetTokenExpiry := u.resetTokenExpiry) == u
  {
    u.(resetToken := Some(token), resetTokenExpiry := Some(now + HourSeconds))
  }

  /** POST /auth/forgot-password at time `now`; `token` is the freshly
      generated reset token. */
  method ForgotPassword(db: Db, email: Arg<string>, token: string, now: int) returns (r: Response<string>)
    requires db.Valid() && TokenUnused(db.users, token)
    modifies db
    ensures db.Valid()
    ensures !Truthy(email) ==> r == Err(400, "Email is required") && unchanged(db)
    ensures Truthy(email) && UserByEmail(old(db.users), email.value).None? ==>
      r == Err(404, "User not found") && unchanged(db)
    ensures Truthy(email) && UserByEmail(old(db.users), email.value).Some? ==>
      var id := UserByEmail(old(db.users), email.value).value;
      && db.users == old(db.users)[id := WithResetToken(old(db.users)[id], token, now)]
      && db.issues == old(db.issues)
      && db.nextUserId == old(db.nextUserId) && db.nextIssueId == old(db.nextIssueId)
      && r == Ok(200, "Password reset email sent")
  {
    if !Truthy(email) {
      return Err(400, "Email is required");
    }
    var found := UserByEmail(db.users, email.value);
    if found.None? {
      return Err(404, "User not found");
    }
    var id := found.value;
    db.users := db.users[id := WithResetToken(db.users[id], token, now)];
    r := Ok(200, "Password reset email sent");
  }

  // ---- reset password ----

  /** `SELECT id FROM users WHERE reset_token = ? AND reset_token_expiry > NOW()`. */
  function ResetTarget(users: map<int, User>, token: string, now: int): (r: Option<int>)
    requires TokensUnique(users)
    ensures r.Some? ==> (r.value in users && users[r.value].resetToken == Some(token)
      && users[r.value].resetTokenExpiry.Some? && users[r.value].resetTokenExpiry.value > now)
    ensures r.None? <==> forall k :: k in users ==>
      !(users[k].resetToken == Some(token) && users[k].resetTokenExpiry.Some? && users[k].resetTokenExpiry.value > now)
  {
    FindUser(users, (u: User) => u.resetToken == Some(token) && u.resetTokenExpiry.Some? && u.resetTokenExpiry.value > now)
  }

  /** The guards shared by resetPassword and acceptInvitation. */
  function PasswordRejection(token: Arg<string>, password: Arg<string>): (r: Option<Rejection>)
    ensures r.None? <==> Truthy(token) && Truthy(password) && |password.value| >= MinPasswordLength
    ensures !Truthy(token) || !Truthy(password) ==> r == Some(Rejection(400, "Token and password are required"))
    ensures (Truthy(token) && Truthy(password) && |password.value| < MinPasswordLength) ==>
      r == Some(Rejection(400, "Password must be at least 6 characters"))
  {
    if !Truthy(token) || !Truthy(password) then Some(Rejection(400, "Token and password are required"))
    else if |password.value| < MinPasswordLength then Some(Rejection(400, "Password must be at least 6 characters"))
    else None
  }

  /** The guards of resetPassword: a token and a password of at least six
      characters, and a user holding that token with an expiry strictly
      after `now`. */
  function ResetRejection(users: map<int, User>, token: Arg<string>, password: Arg<string>, now: int): (r: Option<Rejection>)
    requires TokensUnique(users)
    ensures r.None? <==>
      && PasswordRejection(token, password).None?
      && exists k :: k in users && users[k].resetToken == Some(token.value)
           && users[k].resetTokenExpiry.Some? && users[k].resetTokenExpiry.value > now
    ensures PasswordRejection(token, password).Some? ==> r == PasswordRejection(token, password)
    ensures PasswordRejection(token, password).None? && ResetTarget(users, token.value, now).None? ==>
      r == Some(Rejection(400, "Invalid or expired token"))
  {
    if PasswordRejection(token, password).Some? then PasswordRejection(token, password)
    else if ResetTarget(users, token.value, now).None? then Some(Rejection(400, "Invalid or expired token"))
    else None
  }

  /** The row after a password is set: the new hash, and no token. */
  function WithPassword(u: User, hash: string): (r: User)
    ensures r.passwordHash == Some(hash) && r.resetToken.None? && r.resetTokenExpiry.None?
    ensures r.(passwordHash := u.passwordHash, resetToken := u.resetToken, resetTokenExpiry := u.resetTokenExpiry) == u
  {
    u.(passwordHash := Some(hash), resetToken := None, resetTokenExpiry := None)
  }

  /** POST /auth/reset-password at time `now`; `salt` is the bcrypt salt
      drawn for the new hash. */
  method ResetPassword(db: Db, token: Arg<string>, password: Arg<string>, salt: string, crypto: Crypto, now: int)
    returns (r: Response<string>)
    requires db.Valid()
    modifies db
    ensures db.Valid()
    ensures ResetRejection(old(db.users), token, password, now).Some? ==>
      var e := ResetRejection(old(db.users), token, password, now).value;
      r == Err(e.code, e.message) && unchanged(db)
    ensures ResetRejection(old(db.users), token, password, now).None? ==>
      var id := ResetTarget(old(db.users), token.value, now).value;
      && db.users == old(db.users)[id := WithPassword(old(db.users)[id], crypto.bcryptHash(password.value, salt))]
      && db.issues == old(db.issues)
      && db.nextUserId == old(db.nextUserId) && db.nextIssueId == old(db.nextIssueId)
      && r == Ok(200, "Password reset successfully")
  {
    if !Truthy(token) || !Truthy(password) {
      return Err(400, "Token and password are required");
    }
    if |password.value| < MinPasswordLength {
      return Err(400, "Password must be at least 6 characters");
    }
    var found := ResetTarget(db.users, token.value, now);
    if found.None? {
      return Err(400, "Invalid or expired token");
    }
    var id := found.value;
    db.users := db.users[id := WithPassword(db.users[id], crypto.bcryptHash(password.value, salt))];
    r := Ok(200, "Password reset successfully");
  }

  // ---- accept invitation ----

  /** `SELECT ... FROM users WHERE reset_token = ? AND status = 'invited'`. */
  function InvitationTarget(users: map<int, User>, token: string): (r: Option<int>)
    requires TokensUnique(users)
    ensures r.Some? ==> r.value in users && users[r.value].resetToken == Some(token) && users[r.value].status == "invited"
    ensures r.None? <==> forall k :: k in users ==> !(users[k].resetToken == Some(token) && users[k].status == "invited")
  {
    FindUser(users, (u: User) => u.resetToken == Some(token) && u.status == "invited")
  }

  /** The guards of acceptInvitation: the password guards, an invited user
      holding the token, and an expiry that is present and not before `now`. */
  function AcceptRejection(users: map<int, User>, token: Arg<string>, password: Arg<string>, now: int): (r: Option<Rejection>)
    requires TokensUnique(users)
    ensures r.None? <==>
      && PasswordRejection(token, password).None?
      && exists k :: k in users && users[k].resetToken == Some(token.value) && users[k].status == "invited"
           && users[k].resetTokenExpiry.Some? && users[k].resetTokenExpiry.value >= now
    ensures PasswordRejection(token, password).Some? ==> r == PasswordRejection(token, password)
    ensures PasswordRejection(token, password).None? && InvitationTarget(users, token.value).None? ==>
      r == Some(Rejection(400, "Invalid or expired invitation token"))
    ensures forall k :: (PasswordRejection(token, password).None? && k in users
      && users[k].resetToken == Some(token.value) && users[k].status == "invited"
      && (users[k].resetTokenExpiry.None? || users[k].resetTokenExpiry.value < now)) ==>
      r == Some(Rejection(400, "Invitation token has expired"))
  {
    if PasswordRejection(token, password).Some? then PasswordRejection(token, password)
    else
      var found := InvitationTarget(users, token.value);
      if found.None? then Some(Rejection(400, "Invalid or expired invitation token"))
      else
        var expiry := users[found.value].resetTokenExpiry;
        if expiry.None? || expiry.value < now then Some(Rejection(400, "Invitation token has expired"))
        else None
  }

  /** The row after an invitation is accepted: the password set, the token
      cleared, and the account active. */
  function Activated(u: User, hash: string): (r: User)
    ensures r.status == "active" && r.passwordHash == Some(hash) && r.resetToken.None? && r.resetTokenExpiry.None?
    ensures r.(status := u.status, passwordHash := u.passwordHash, resetToken := u.resetToken,
               resetTokenExpiry := u.resetTokenExpiry) == u
  {
    WithPassword(u, hash).(status := "active")
  }

  /** POST /auth/accept-invitation at time `now`. */
  method AcceptInvitation(db: Db, token: Arg<string>, password: Arg<string>, salt: string, crypto: Crypto, now: int)
    returns (r: Response<Acceptance>)
    requires db.Valid()
    modifies db
    ensures db.Valid()
    ensures AcceptRejection(old(db.users), token, password, now).Some? ==>
      var e := AcceptRejection(old(db.users), token, password, now).value;
      r == Err(e.code, e.message) && unchanged(db)
    ensures AcceptRejection(old(db.users), token, password, now).None? ==>
      var id := InvitationTarget(old(db.users), token.value).value;
      var u := old(db.users)[id];
      && db.users == old(db.users)[id := Activated(u, crypto.bcryptHash(password.value, salt))]
      && db.issues == old(db.issues)
      && db.nextUserId == old(db.nextUserId) && db.nextIssueId == old(db.nextIssueId)
      && r == Ok(200, Acceptance(crypto.signSession(id),
                                 Profile(id, u.email, NullIfEmpty(u.fname), NullIfEmpty(u.lname), u.role),
                                 "Invitation accepted successfully"))
  {
    if !Truthy(token) || !Truthy(password) {
      return Err(400, "Token and password are required");
    }
    if |password.value| < MinPasswordLength {
      return Err(400, "Password must be at least 6 characters");
    }
    var found := InvitationTarget(db.users, token.value);
    if found.None? {
      return Err(400, "Invalid or expired invitation token");
    }
    var id := found.value;
    var u := db.users[id];
    if u.resetTokenExpiry.None? || u.resetTokenExpiry.value < now {
      return Err(400, "Invitation token has expired");
    }
    db.users := db.users[id := Activated(u, crypto.bcryptHash(password.value, salt))];
    r := Ok(200, Acceptance(crypto.signSession(id),
                            Profile(id, u.email, NullIfEmpty(u.fname), NullIfEmpty(u.lname), u.role),
                            "Invitation accepted successfully"));
  }

  // ---- properties across handlers ----

  /** A token whose expiry is exactly `now` no longer resets a password
      (the comparison is `>`), but still admits an invitation (the check
      is `<`). */
  lemma ExpiryBoundary(users: map<int, User>, k: int, token: string, password: string, now: int)
    requires TokensUnique(users)
    requires |password| >= MinPasswordLength && token != ""
    requires k in users && users[k].resetToken == Some(token) && users[k].resetTokenExpiry == Some(now)
    ensures ResetRejection(users, Given(token), Given(password), now) == Some(Rejection(400, "Invalid or expired token"))
    ensures users[k].status == "invited" ==> AcceptRejection(users, Given(token), Given(password), now).None?
  {
    forall j | j in users && users[j].resetToken == Some(token)
      ensures j == k
    {
      assert users[j].resetToken == users[k].resetToken;
    }
    assert ResetTarget(users, token, now).None?;
    if users[k].status == "invited" {
      assert users[k].resetTokenExpiry.value >= now;
    }
  }

  /** An invitation token works once: after acceptance no user holds it,
      so a second acceptance is refused as an invalid token. */
  lemma SecondAcceptFails(users: map<int, User>, next: int, id: int, token: string, password: string, hash: string, now: int)
    requires UsersWellFormed(users, next)
    requires id in users && users[id].resetToken == Some(token)
    requires |password| >= MinPasswordLength && token != ""
    ensures var after := users[id := Activated(users[id], hash)];
      && TokensUnique(after)
      && AcceptRejection(after, Given(token), Given(password), now) == Some(Rejection(400, "Invalid or expired invitation token"))
  {
    var after := users[id := Activated(users[id], hash)];
    forall k | k in after
      ensures after[k].resetToken != Some(token)
    {
      if k != id {
        assert users[k].resetToken != users[id].resetToken;
      }
    }
    assert InvitationTarget(after, token).None?;
  }

  /** Once an invitation is accepted with a password whose bcrypt hash is
      non-empty and accepted by bcrypt, the same email and password log in. */
  lemma LoginAfterAccept(users: map<int, User>, next: int, id: int, password: string, salt: string, crypto: Crypto)
    requires UsersWellFormed(users, next)
    requires id in users && users[id].email != "" && password != ""
    requires crypto.bcryptHash(password, salt) != ""
    requires crypto.bcryptCompare(password, crypto.bcryptHash(password, salt))
    ensures var after := users[id := Activated(users[id], crypto.bcryptHash(password, salt))];
      && EmailsUnique(after)
      && Login(after, Given(users[id].email), Given(password), crypto) ==
           Ok(200, Session(crypto.signSession(id), ProfileOf(after[id])))
  {
    var after := users[id := Activated(users[id], crypto.bcryptHash(password, salt))];
    assert forall k :: k in after ==> after[k].email == users[k].email;
    assert EmailsUnique(after);
    var found := UserByEmail(after, users[id].email);
    assert found == Some(id);
  }

  /** A reset does not activate an account: an invited user who resets the
      password is still told to accept the invitation. */
  lemma ResetKeepsInvitation(users: map<int, User>, next: int, id: int, hash: string, password: string, crypto: Crypto)
    requires UsersWellFormed(users, next)
    requires id in users && users[id].status == "invited" && users[id].email != "" && password != ""
    ensures var after := users[id := WithPassword(users[id], hash)];
      && EmailsUnique(after)
      && after[id].status == "invited" && after[id].passwordHash == Some(hash)
      && Login(after, Given(users[id].email), Given(password), crypto) == Err(403, "Please accept your invitation first")
  {
    var after := users[id := WithPassword(users[id], hash)];
    assert forall k :: k in after ==> after[k].email == users[k].email;
    InvitedUserMustAccept(after, id, password, crypto);
  }

  /** Asking for a password reset replaces a pending invitation token, so
      the invitation link stops working. */
  lemma ForgotReplacesInvitation(users: map<int, User>, next: int, id: int, oldToken: string, newToken: string,
                                 password: string, now: int, later: int)
    requires UsersWellFormed(users, next) && TokenUnused(users, newToken)
    requires id in users && users[id].resetToken == Some(oldToken)
    requires |password| >= MinPasswordLength && oldToken != ""
    ensures var after := users[id := WithResetToken(users[id], newToken, now)];
      && TokensUnique(after)
      && AcceptRejection(after, Given(oldToken), Given(password), later) == Some(Rejection(400, "Invalid or expired invitation token"))
  {
    var after := users[id := WithResetToken(users[id], newToken, now)];
    assert newToken != oldToken;
    forall k | k in after
      ensures after[k].resetToken != Some(oldToken)
    {
      if k != id {
        assert users[k].resetToken != users[id].resetToken;
      }
    }
    forall a, b | a in after && b in after && after[a].resetToken.Some? && after[a].resetToken == after[b].resetToken
      ensures a == b
    {
    }
    assert InvitationTarget(after, oldToken).None?;
  }
}
