/**
 * Registration, login and token refresh. Password hashing, password checking
 * and token creation are parameters: the model says which values they are
 * applied to, not what they compute.
 */
module AuthRoutes {
  import opened Common
  import opened Database

  datatype Token = Token(accessToken: string, tokenType: string, userId: nat, email: string, username: string)

  const RegisterConflict: string := "User with this email or username already exists"
  const BadCredentials: string := "Incorrect email or password"
  const InactiveUser: string := "Inactive user"

  /** The token response for a user: a bearer token whose subject is the user's id. */
  function TokenFor(user: UserRow, createAccessToken: string -> string): Token
  {
    Token(createAccessToken(NatToString(user.id)), "bearer", user.id, user.email, user.username)
  }

  /**
   * register: refused with 400, adding nothing, when any user already has
   * the email or the user name; otherwise exactly one active, unverified
   * user with the hashed password is appended and its token returned.
   */
  method Register(db: Db, email: string, username: string, password: string, fullName: Option<string>,
                  hash: string -> string, createAccessToken: string -> string)
    returns (r: Response<Token>)
    requires db.Valid()
    modifies db
    ensures db.Valid()
    ensures db.documents == old(db.documents) && db.verifications == old(db.verifications)
    ensures db.nextDocumentId == old(db.nextDocumentId) && db.nextVerificationId == old(db.nextVerificationId)
    ensures EmailTaken(old(db.users), email) || UsernameTaken(old(db.users), username) ==>
              r == HttpError(400, RegisterConflict) && db.users == old(db.users) &&
              db.nextUserId == old(db.nextUserId)
    ensures !EmailTaken(old(db.users), email) && !UsernameTaken(old(db.users), username) ==>
              var row := UserRow(old(db.nextUserId), email, username, hash(password), fullName, true, false);
              && db.users == old(db.users) + [row]
              && db.nextUserId == old(db.nextUserId) + 1
              && r == Ok(TokenFor(row, createAccessToken))
              && r.value.tokenType == "bearer" && r.value.userId == row.id
              && r.value.email == email && r.value.username == username
  {
    if EmailTaken(db.users, email) || UsernameTaken(db.users, username) {
      return HttpError(400, RegisterConflict);
    }
    var hashedPassword := hash(password);
    var row := UserRow(db.nextUserId, email, username, hashedPassword, fullName, true, false);
    db.users := db.users + [row];
    db.nextUserId := db.nextUserId + 1;
    r := Ok(TokenFor(row, createAccessToken));
  }

  /** The first user with this email. */
  function FindByEmail(users: seq<UserRow>, email: string): (r: Option<nat>)
    ensures r.None? <==> !EmailTaken(users, email)
    ensures r.Some? ==> r.value < |users| && users[r.value].email == email
    ensures r.Some? ==> forall j :: 0 <= j < r.value ==> users[j].email != email
  {
    if users == [] then None
    else if users[0].email == email then Some(0)
    else
      var rest := FindByEmail(users[1..], email);
      assert rest.None? ==> forall i :: 1 <= i < |users| ==> users[i].email == users[1..][i - 1].email;
      if rest.None? then None else Some(rest.value + 1)
  }

  /**
   * login, with the email sent in the form's `username` field: 401 both for
   * an unknown email and for a wrong password; 400 for an inactive user,
   * but only once the password has verified; otherwise a token.
   */
  function Login(users: seq<UserRow>, formUsername: string, password: string,
                 verifyPassword: (string, string) -> bool, createAccessToken: string -> string)
    : (r: Response<Token>)
    ensures var found := FindByEmail(users, formUsername);
      && (r == HttpError(401, BadCredentials) <==>
            found.None? || !verifyPassword(password, users[found.value].hashedPassword))
      && (r == HttpError(400, InactiveUser) <==>
            found.Some? && verifyPassword(password, users[found.value].hashedPassword) &&
            !users[found.value].isActive)
      && (r.Ok? ==> found.Some? && users[found.value].isActive &&
                    r.value == TokenFor(users[found.value], createAccessToken))
  {
    var found := FindByEmail(users, formUsername);
    if found.None? || !verifyPassword(password, users[found.value].hashedPassword) then
      HttpError(401, BadCredentials)
    else if !users[found.value].isActive then HttpError(400, InactiveUser)
    else Ok(TokenFor(users[found.value], createAccessToken))
  }

  /** An inactive account with a wrong password still gets the plain 401: the activity test comes second. */
  lemma InactiveNeedsRightPassword(users: seq<UserRow>, u: nat, password: string,
                                   verifyPassword: (string, string) -> bool, createAccessToken: string -> string)
    requires UniqueAccounts(users) && u < |users| && !users[u].isActive
    requires !verifyPassword(password, users[u].hashedPassword)
    ensures Login(users, users[u].email, password, verifyPassword, createAccessToken) == HttpError(401, BadCredentials)
  {
    FindByEmailUnique(users, u);
  }

  /** With unique emails, the user found by an email is the user who has it. */
  lemma FindByEmailUnique(users: seq<UserRow>, u: nat)
    requires UniqueAccounts(users) && u < |users|
    ensures FindByEmail(users, users[u].email) == Some(u)
  {
    assert EmailTaken(users, users[u].email);
  }

  /** refresh: a new token for the current user; nothing is stored. */
  function Refresh(current: UserRow, createAccessToken: string -> string): (t: Token)
    ensures t.tokenType == "bearer" && t.accessToken == createAccessToken(NatToString(current.id))
    ensures t.userId == current.id && t.email == current.email && t.username == current.username
  {
    TokenFor(current, createAccessToken)
  }

  /**
   * A successful login and a refresh by the same user create their tokens
   * from the same subject, the user's id, and both carry that user's id,
   * email and name. The token text is equal here only because token
   * creation is a parameter that depends on the subject alone.
   */
  lemma RefreshMatchesLogin(users: seq<UserRow>, u: nat, password: string,
                            verifyPassword: (string, string) -> bool, createAccessToken: string -> string)
    requires UniqueAccounts(users) && u < |users| && users[u].isActive
    requires verifyPassword(password, users[u].hashedPassword)
    ensures Login(users, users[u].email, password, verifyPassword, createAccessToken) ==
              Ok(Refresh(users[u], createAccessToken))
    ensures var t := Refresh(users[u], createAccessToken);
      t.userId == users[u].id && t.email == users[u].email && t.username == users[u].username
  {
    FindByEmailUnique(users, u);
  }
}
