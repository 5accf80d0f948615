/**
 * The current user's own account: profile update, password change and
 * deactivation. The current user is the row at index `u`, which the
 * authentication dependency guarantees to exist and to be active.
 */
module UserRoutes {
  import opened Common
  import opened Database
  import AuthRoutes

  /** The request body of a profile update; an absent field is left alone. */
  datatype UserUpdate = UserUpdate(fullName: Option<string>, email: Option<string>, username: Option<string>)

  const EmailRegistered: string := "Email already registered"
  const UsernameInUse: string := "Username already taken"
  const IntegrityFailure: string := "Internal Server Error"
  const PasswordIncorrect: string := "Current password is incorrect"
  const PasswordChanged: string := "Password changed successfully"
  const AccountDeactivated: string := "Account deactivated successfully"

  /** The row after the fields given in the update are assigned. */
  function Applied(row: UserRow, upd: UserUpdate): (r: UserRow)
    ensures r.id == row.id && r.hashedPassword == row.hashedPassword
    ensures r.isActive == row.isActive && r.isVerified == row.isVerified
    ensures r.fullName == (if upd.fullName.Some? then upd.fullName else row.fullName)
    ensures r.email == (if upd.email.Some? then upd.email.value else row.email)
    ensures r.username == (if upd.username.Some? then upd.username.value else row.username)
  {
    var a := if upd.fullName.Some? then row.(fullName := upd.fullName) else row;
    var b := if upd.email.Some? then a.(email := upd.email.value) else a;
    if upd.username.Some? then b.(username := upd.username.value) else b
  }

  /** Applying an update twice is applying it once. */
  lemma AppliedIdempotent(row: UserRow, upd: UserUpdate)
    ensures Applied(Applied(row, upd), upd) == Applied(row, upd)
  {
  }

  /** The email test: a truthy new email that differs from the user's own and that some row already has. */
  predicate EmailConflict(users: seq<UserRow>, u: nat, upd: UserUpdate)
    requires u < |users|
  {
    PyTruthy(upd.email) && upd.email.value != users[u].email && EmailTaken(users, upd.email.value)
  }

  predicate UsernameConflict(users: seq<UserRow>, u: nat, upd: UserUpdate)
    requires u < |users|
  {
    PyTruthy(upd.username) && upd.username.value != users[u].username && UsernameTaken(users, upd.username.value)
  }

  /**
   * update_user_profile as a value: the response and the users table after
   * the request. The email test comes first, then the user name test; an
   * update that passes both but would still break a unique column is
   * refused when it is committed (a 500, with nothing written).
   */
  function UpdateProfile(users: seq<UserRow>, u: nat, upd: UserUpdate): (r: (Response<UserRow>, seq<UserRow>))
    requires u < |users|
    ensures r.0.HttpError? ==> r.1 == users
    ensures r.0 == HttpError(400, EmailRegistered) <==> EmailConflict(users, u, upd)
    ensures r.0 == HttpError(400, UsernameInUse) <==>
              !EmailConflict(users, u, upd) && UsernameConflict(users, u, upd)
    ensures r.0 == HttpError(500, IntegrityFailure) <==>
              !EmailConflict(users, u, upd) && !UsernameConflict(users, u, upd) &&
              !UniqueAccounts(users[u := Applied(users[u], upd)])
    ensures r.0.Ok? ==> r.1 == users[u := Applied(users[u], upd)] && r.0.value == r.1[u] && UniqueAccounts(r.1)
  {
    if EmailConflict(users, u, upd) then (HttpError(400, EmailRegistered), users)
    else if UsernameConflict(users, u, upd) then (HttpError(400, UsernameInUse), users)
    else
      var after := users[u := Applied(users[u], upd)];
      if !UniqueAccounts(after) then (HttpError(500, IntegrityFailure), users)
      else (Ok(after[u]), after)
  }

  /**
   * When the new email and user name are both non-empty (or not given), the
   * two tests are all that guards the unique columns: an update that passes
   * them is committed.
   */
  lemma {:induction false} ChecksSufficeForTruthyValues(users: seq<UserRow>, u: nat, upd: UserUpdate)
    requires UniqueAccounts(users) && u < |users|
    requires upd.email.None? || PyTruthy(upd.email)
    requires upd.username.None? || PyTruthy(upd.username)
    requires !EmailConflict(users, u, upd) && !UsernameConflict(users, u, upd)
    ensures UpdateProfile(users, u, upd).0.Ok?
  {
    var after := users[u := Applied(users[u], upd)];
    forall i, j | 0 <= i < j < |after|
      ensures after[i].id != after[j].id && after[i].email != after[j].email &&
              after[i].username != after[j].username
    {
      if i == u {
        assert users[j] == after[j];
        assert upd.email.Some? ==> upd.email.value != users[j].email;
        assert upd.username.Some? ==> upd.username.value != users[j].username;
      } else if j == u {
        assert users[i] == after[i];
        assert upd.email.Some? ==> upd.email.value != users[i].email;
        assert upd.username.Some? ==> upd.username.value != users[i].username;
      }
    }
  }

  /**
   * An empty user name skips the user name test, so taking the empty name
   * another account already has reaches the database's unique constraint.
   */
  lemma EmptyUsernameReachesConstraint(a: UserRow, b: UserRow)
    requires a.id != b.id && a.email != b.email && a.username != "" && b.username == ""
    ensures var users := [a, b];
      && UniqueAccounts(users)
      && UpdateProfile(users, 0, UserUpdate(None, None, Some(""))) == (HttpError(500, IntegrityFailure), users)
  {
    var users := [a, b];
    var after := users[0 := Applied(a, UserUpdate(None, None, Some("")))];
    assert after[0].username == after[1].username;
  }

  /** PUT /profile: a committed update replaces the current user's row; any refusal writes nothing. */
  method UpdateUserProfile(db: Db, u: nat, upd: UserUpdate) returns (r: Response<UserRow>)
    requires db.Valid() && db.IsCurrentUser(u)
    modifies db
    ensures db.Valid()
    ensures (r, db.users) == UpdateProfile(old(db.users), u, upd)
    ensures db.documents == old(db.documents) && db.verifications == old(db.verifications)
    ensures db.nextUserId == old(db.nextUserId) && db.nextDocumentId == old(db.nextDocumentId)
    ensures db.nextVerificationId == old(db.nextVerificationId)
  {
    var current := db.users[u];
    if PyTruthy(upd.email) && upd.email.value != current.email && EmailTaken(db.users, upd.email.value) {
      return HttpError(400, EmailRegistered);
    }
    if PyTruthy(upd.username) && upd.username.value != current.username && UsernameTaken(db.users, upd.username.value) {
      return HttpError(400, UsernameInUse);
    }
    var updated := Applied(current, upd);
    if !UniqueAccounts(db.users[u := updated]) {
      return HttpError(500, IntegrityFailure);
    }
    db.users := db.users[u := updated];
    r := Ok(updated);
  }

  /** POST /change-password: the current password must verify; then only its hash changes. */
  method ChangePassword(db: Db, u: nat, currentPassword: string, newPassword: string,
                        verifyPassword: (string, string) -> bool, hash: string -> string)
    returns (r: Response<string>)
    requires db.Valid() && db.IsCurrentUser(u)
    modifies db
    ensures db.Valid()
    ensures !verifyPassword(currentPassword, old(db.users)[u].hashedPassword) ==>
              r == HttpError(400, PasswordIncorrect) && db.users == old(db.users)
    ensures verifyPassword(currentPassword, old(db.users)[u].hashedPassword) ==>
              r == Ok(PasswordChanged) &&
              db.users == old(db.users)[u := old(db.users)[u].(hashedPassword := hash(newPassword))]
    ensures db.documents == old(db.documents) && db.verifications == old(db.verifications)
    ensures db.nextUserId == old(db.nextUserId) && db.nextDocumentId == old(db.nextDocumentId)
    ensures db.nextVerificationId == old(db.nextVerificationId)
  {
    if !verifyPassword(currentPassword, db.users[u].hashedPassword) {
      return HttpError(400, PasswordIncorrect);
    }
    db.users := db.users[u := db.users[u].(hashedPassword := hash(newPassword))];
    r := Ok(PasswordChanged);
  }

  /**
   * After a password change the new password logs in, and the old one no
   * longer does, given a verifier that accepts a password against its own
   * hash and rejects the old password against the new hash.
   */
  lemma PasswordChangeThenLogin(users: seq<UserRow>, u: nat, oldPassword: string, newPassword: string,
                                verifyPassword: (string, string) -> bool, hash: string -> string,
                                createAccessToken: string -> string)
    requires UniqueAccounts(users) && u < |users| && users[u].isActive
    requires verifyPassword(newPassword, hash(newPassword))
    requires !verifyPassword(oldPassword, hash(newPassword))
    ensures var after := users[u := users[u].(hashedPassword := hash(newPassword))];
      && AuthRoutes.Login(after, users[u].email, newPassword, verifyPassword, createAccessToken).Ok?
      && AuthRoutes.Login(after, users[u].email, oldPassword, verifyPassword, createAccessToken) ==
           HttpError(401, AuthRoutes.BadCredentials)
  {
    var after := users[u := users[u].(hashedPassword := hash(newPassword))];
    assert UniqueAccounts(after) by {
      forall i, j | 0 <= i < j < |after|
        ensures after[i].id != after[j].id && after[i].email != after[j].email &&
                after[i].username != after[j].username
      {
        assert users[i].email != users[j].email;
      }
    }
    AuthRoutes.FindByEmailUnique(after, u);
  }

  /** DELETE /account: the account is deactivated, not removed. */
  method DeleteAccount(db: Db, u: nat) returns (r: Response<string>)
    requires db.Valid() && db.IsCurrentUser(u)
    modifies db
    ensures db.Valid() && !db.IsCurrentUser(u)
    ensures r == Ok(AccountDeactivated)
    ensures db.users == old(db.users)[u := old(db.users)[u].(isActive := false)]
    ensures db.documents == old(db.documents) && db.verifications == old(db.verifications)
    ensures db.nextUserId == old(db.nextUserId) && db.nextDocumentId == old(db.nextDocumentId)
    ensures db.nextVerificationId == old(db.nextVerificationId)
  {
    db.users := db.users[u := db.users[u].(isActive := false)];
    r := Ok(AccountDeactivated);
  }

  /**
   * A deactivated account keeps its row: the right password is answered
   * with "Inactive user" rather than a token, a wrong one with the plain 401.
   */
  lemma DeactivatedCannotLogIn(users: seq<UserRow>, u: nat, password: string,
                               verifyPassword: (string, string) -> bool, createAccessToken: string -> string)
    requires UniqueAccounts(users) && u < |users|
    ensures var after := users[u := users[u].(isActive := false)];
      && (verifyPassword(password, users[u].hashedPassword) ==>
            AuthRoutes.Login(after, users[u].email, password, verifyPassword, createAccessToken) ==
              HttpError(400, AuthRoutes.InactiveUser))
      && (!verifyPassword(password, users[u].hashedPassword) ==>
            AuthRoutes.Login(after, users[u].email, password, verifyPassword, createAccessToken) ==
              HttpError(401, AuthRoutes.BadCredentials))
  {
    var after := users[u := users[u].(isActive := false)];
    assert UniqueAccounts(after) by {
      forall i, j | 0 <= i < j < |after|
        ensures after[i].id != after[j].id && after[i].email != after[j].email &&
                after[i].username != after[j].username
      {
        assert users[i].email != users[j].email;
      }
    }
    AuthRoutes.FindByEmailUnique(after, u);
  }
}
