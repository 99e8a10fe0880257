/**
 The account handlers `POST /api/auth/signup` and `POST /api/auth/login`.
 Setting the session cookie is not part of this model; the password digest is
 the parameter `digest` of module `Auth`.
 */
module AuthRoutes {
  import opened Common
  import opened Http
  import JsText
  import Auth
  import DbUtils

  /** The signup body; an absent or non-string field is `None`. */
  datatype SignupBody = SignupBody(email: Option<string>, password: Option<string>, name: Option<string>)

  /** The login body. */
  datatype LoginBody = LoginBody(email: Option<string>, password: Option<string>)

  const MIN_PASSWORD_LENGTH: nat := 6

  const SIGNUP_FAILED := "Failed to create account"
  const ALL_FIELDS_REQUIRED := "All fields are required"
  const PASSWORD_TOO_SHORT := "Password must be at least 6 characters"
  const USER_EXISTS := "User already exists with this email"

  const LOGIN_FAILED := "Failed to login"
  const CREDENTIALS_REQUIRED := "Email and password are required"
  const INVALID_CREDENTIALS := "Invalid email or password"

  /** No two users share an email. The unique index covers `_id` only; this
      holds because signup refuses a taken email. */
  ghost predicate EmailsUnique(users: seq<DbUtils.User>)
  {
    forall i, j :: 0 <= i < j < |users| ==> users[i].email != users[j].email
  }

  /** The user object of the signup and login answers. */
  function View(u: DbUtils.User): (v: UserView)
    ensures v.id == u.id && v.email == u.email && v.name == u.name && v.isPremium == u.isPremium
  {
    UserView(u.id, u.email, u.name, u.isPremium)
  }

  /** The body passes the two field checks of signup. */
  predicate SignupFieldsValid(b: SignupBody)
  {
    && Present(b.email) && Present(b.password) && Present(b.name)
    && JsText.Utf16Length(b.password.value) >= MIN_PASSWORD_LENGTH
  }

  /** `POST /api/auth/signup`. `body` is `None` when `request.json()` throws
      or yields `null`; `newId` is the id the insert assigns. The checks run
      in order: required fields, password length in UTF-16 code units, taken
      email. The new user is not premium and its stored password is the hash. */
  method Signup(store: DbUtils.Store, body: Option<SignupBody>, digest: Auth.Digester, newId: Id, now: Timestamp)
    returns (resp: Response)
    requires store.Valid()
    modifies store
    ensures store.Valid()
    ensures store.pdfs == old(store.pdfs) && store.links == old(store.links)
    ensures store.requests == old(store.requests)
    ensures EmailsUnique(old(store.users)) ==> EmailsUnique(store.users)
    ensures body.None? ==> resp == Error(500, SIGNUP_FAILED) && store.users == old(store.users)
    ensures body.Some? && !(Present(body.value.email) && Present(body.value.password) && Present(body.value.name)) ==>
      resp == Error(400, ALL_FIELDS_REQUIRED) && store.users == old(store.users)
    ensures body.Some? && Present(body.value.email) && Present(body.value.password) && Present(body.value.name) &&
            JsText.Utf16Length(body.value.password.value) < MIN_PASSWORD_LENGTH ==>
      resp == Error(400, PASSWORD_TOO_SHORT) && store.users == old(store.users)
    ensures body.Some? && SignupFieldsValid(body.value) &&
            (exists u :: u in old(store.users) && u.email == body.value.email.value) ==>
      resp == Error(400, USER_EXISTS) && store.users == old(store.users)
    ensures body.Some? && SignupFieldsValid(body.value) &&
            (forall u :: u in old(store.users) ==> u.email != body.value.email.value) ==>
      var b := body.value;
      if forall u :: u in old(store.users) ==> u.id != newId then
        var user := DbUtils.User(newId, b.email.value, Auth.HashPassword(digest, b.password.value), b.name.value, false, [], now);
        resp == Ok(UserBody(UserView(newId, b.email.value, b.name.value, false))) &&
        store.users == old(store.users) + [user]
      else
        resp == Error(500, SIGNUP_FAILED) && store.users == old(store.users)
  {
    if body.None? {
      return Error(500, SIGNUP_FAILED);
    }
    var b := body.value;
    if !Present(b.email) || !Present(b.password) || !Present(b.name) {
      return Error(400, ALL_FIELDS_REQUIRED);
    }
    var email, password, name := b.email.value, b.password.value, b.name.value;
    if JsText.Utf16Length(password) < MIN_PASSWORD_LENGTH {
      return Error(400, PASSWORD_TOO_SHORT);
    }
    var existing := store.GetUserByEmail(email);
    if existing.Some? {
      return Error(400, USER_EXISTS);
    }
    var hashed := Auth.HashPassword(digest, password);
    ghost var before := store.users;
    var inserted := store.CreateUser(newId, email, hashed, name, false, now);
    if !inserted {
      return Error(500, SIGNUP_FAILED);
    }
    AppendKeepsEmailsUnique(before, DbUtils.User(newId, email, hashed, name, false, [], now));
    resp := Ok(UserBody(UserView(newId, email, name, false)));
  }

  /** Appending a user whose email is not taken keeps emails unique. */
  lemma AppendKeepsEmailsUnique(users: seq<DbUtils.User>, user: DbUtils.User)
    requires forall u :: u in users ==> u.email != user.email
    ensures EmailsUnique(users) ==> EmailsUnique(users + [user])
  {
    var all := users + [user];
    if EmailsUnique(users) {
      forall i, j | 0 <= i < j < |all| ensures all[i].email != all[j].email {
        if j == |users| {
          assert all[i] in users;
        }
      }
    }
  }

  /** `POST /api/auth/login`: read-only. An unknown email and a wrong
      password get the same answer. */
  method Login(store: DbUtils.Store, body: Option<LoginBody>, digest: Auth.Digester) returns (resp: Response)
    ensures body.None? ==> resp == Error(500, LOGIN_FAILED)
    ensures body.Some? && !(Present(body.value.email) && Present(body.value.password)) ==>
      resp == Error(400, CREDENTIALS_REQUIRED)
    ensures body.Some? && Present(body.value.email) && Present(body.value.password) &&
            (forall u :: u in store.users && u.email == body.value.email.value ==>
               !Auth.VerifyPassword(digest, body.value.password.value, u.password)) ==>
      resp == Error(401, INVALID_CREDENTIALS)
    ensures resp.status == 200 ==>
      body.Some? && Present(body.value.email) && Present(body.value.password) &&
      exists u :: u in store.users && u.email == body.value.email.value &&
        Auth.VerifyPassword(digest, body.value.password.value, u.password) &&
        resp == Ok(UserBody(View(u)))
    ensures body.Some? && Present(body.value.email) && Present(body.value.password) && EmailsUnique(store.users) &&
            (exists u :: u in store.users && u.email == body.value.email.value &&
               Auth.VerifyPassword(digest, body.value.password.value, u.password)) ==>
      resp.status == 200
  {
    if body.None? {
      return Error(500, LOGIN_FAILED);
    }
    var b := body.value;
    if !Present(b.email) || !Present(b.password) {
      return Error(400, CREDENTIALS_REQUIRED);
    }
    var user := store.GetUserByEmail(b.email.value);
    if user.None? {
      return Error(401, INVALID_CREDENTIALS);
    }
    if !Auth.VerifyPassword(digest, b.password.value, user.value.password) {
      forall u | u in store.users && u.email == b.email.value
        ensures EmailsUnique(store.users) ==> !Auth.VerifyPassword(digest, b.password.value, u.password)
      {
        SameEmailSameUser(store.users, u, user.value);
      }
      return Error(401, INVALID_CREDENTIALS);
    }
    resp := Ok(UserBody(View(user.value)));
  }

  /** When emails are unique, an email names one user, if any. */
  lemma SameEmailSameUser(users: seq<DbUtils.User>, u: DbUtils.User, v: DbUtils.User)
    requires u in users && v in users && u.email == v.email
    ensures EmailsUnique(users) ==> u == v
  {
    if EmailsUnique(users) {
      var i :| 0 <= i < |users| && users[i] == u;
      var j :| 0 <= j < |users| && users[j] == v;
      assert i == j;
    }
  }

  /** A successful signup followed by a login with the same email and
      password succeeds and returns the same user object. */
  method SignupThenLogin(store: DbUtils.Store, body: SignupBody, digest: Auth.Digester, newId: Id, now: Timestamp)
    returns (signup: Response, login: Response)
    requires store.Valid() && EmailsUnique(store.users)
    modifies store
    ensures signup.status == 200 ==> login.status == 200 && login.body == signup.body
  {
    signup := Signup(store, Some(body), digest, newId, now);
    if signup.status == 200 {
      var user := DbUtils.User(newId, body.email.value, Auth.HashPassword(digest, body.password.value), body.name.value, false, [], now);
      assert user in store.users;
      Auth.VerifyPasswordIff(digest, body.password.value, user.password);
    }
    login := Login(store, Some(LoginBody(body.email, body.password)), digest);
  }
}
