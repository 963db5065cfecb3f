/** Accounts: registration, password authentication, the administrator's
    user update, and a user's own password change. Password hashing and
    verification are parameters: `hash` stands for `get_password_hash` and
    `verify` for `verify_password`, neither of which is part of this model. */
module AuthApi {
  import opened Common
  import opened Records
  import opened Deps

  /** `UserCreate`: the role defaults to "TEACHER" when the body omits it.
      `email` is the address as the `EmailStr` field hands it on, that is,
      after the framework's normalisation; the model stores and compares
      that text exactly. */
  datatype UserCreate = UserCreate(email: string, password: string, role: Option<string>)

  /** `UserUpdate`: every field optional. Its `email` is a plain string and
      is stored as given, without normalisation. */
  datatype UserUpdate = UserUpdate(email: Option<string>, password: Option<string>, role: Option<string>, isActive: Option<bool>)

  function RoleOf(req: UserCreate): (role: string)
    ensures req.role.None? ==> role == TEACHER
    ensures req.role.Some? ==> role == req.role.value
  {
    match req.role
    case None => TEACHER
    case Some(r) => r
  }

  /** No two accounts share an email, as the UNIQUE constraint on the column demands. */
  ghost predicate UniqueEmails(users: seq<User>)
  {
    KeysDistinct(users, (u: User) => u.email)
  }

  /** `authenticate_user`: the first user with the email, when the password
      verifies against that user's hash; `None` stands for the source's `False`.
      Whether the account is active is not consulted. */
  function Authenticate(users: seq<User>, email: string, password: string, verify: (string, string) -> bool): (r: Option<User>)
    ensures r.Some? <==> exists i :: 0 <= i < |users| && users[i].email == email
                                     && (forall j :: 0 <= j < i ==> users[j].email != email)
                                     && verify(password, users[i].hashedPassword)
    ensures r.Some? ==> r.value in users && r.value.email == email
  {
    match FirstIndex(users, (u: User) => u.email == email)
    case None => None
    case Some(i) => if verify(password, users[i].hashedPassword) then Some(users[i]) else None
  }

  /** `register`: open to anyone; an email already registered is refused with
      400; otherwise an active account is appended with the hashed password
      and the requested role, whatever that role is. */
  function Register(st: Store, req: UserCreate, hash: string -> string): (r: Result<Store>)
    ensures (exists j :: 0 <= j < |st.users| && st.users[j].email == req.email) <==> r == Err(EmailTaken)
    ensures r.Ok? <==> forall j :: 0 <= j < |st.users| ==> st.users[j].email != req.email
    ensures r.Ok? ==>
              && r.value == st.(users := r.value.users)
              && |r.value.users| == |st.users| + 1
              && r.value.users[..|st.users|] == st.users
              && var u := r.value.users[|st.users|];
                 u.email == req.email && u.hashedPassword == hash(req.password)
                 && u.role == RoleOf(req) && u.isActive
                 && forall j :: 0 <= j < |st.users| ==> st.users[j].id != u.id
  {
    if First(st.users, (u: User) => u.email == req.email).Some? then Err(EmailTaken)
    else
      var added := st.users + [User(NewUserId(st.users), req.email, hash(req.password), RoleOf(req), true)];
      assert added[..|st.users|] == st.users;
      Ok(st.(users := added))
  }

  lemma RegisterKeepsEmailsUnique(st: Store, req: UserCreate, hash: string -> string)
    requires UniqueEmails(st.users) && Register(st, req, hash).Ok?
    ensures UniqueEmails(Register(st, req, hash).value.users)
  {
    var u := Register(st, req, hash).value.users;
    forall i, j | 0 <= i < j < |u| ensures u[i].email != u[j].email {
      if j < |st.users| {
        assert u[i] == st.users[i] && u[j] == st.users[j];
      } else {
        assert u[i] == st.users[i];
      }
    }
  }

  /** A freshly registered account logs in with its password, provided the
      hash verifies the password it was made from. */
  lemma RegisterThenAuthenticate(st: Store, req: UserCreate, hash: string -> string, verify: (string, string) -> bool)
    requires Register(st, req, hash).Ok?
    requires verify(req.password, hash(req.password))
    ensures var users := Register(st, req, hash).value.users;
            Authenticate(users, req.email, req.password, verify) == Some(users[|st.users|])
  {
    var users := Register(st, req, hash).value.users;
    FirstIndexIs(users, (u: User) => u.email == req.email, |st.users|);
  }

  /** Registration is unguarded, so anyone may create an account that the
      administrator guard then admits. */
  lemma SelfRegisteredAdmin(st: Store, req: UserCreate, hash: string -> string)
    requires Register(st, req, hash).Ok? && req.role == Some("ADMIN")
    ensures AllowAdmin(Register(st, req, hash).value.users[|st.users|]).Ok?
  {
  }

  /** `is_active` plays no part in authentication: deactivating an account
      leaves its logins as they were. */
  lemma InactiveStillAuthenticates(users: seq<User>, i: int, email: string, password: string, verify: (string, string) -> bool)
    requires 0 <= i < |users|
    ensures Authenticate(users[i := users[i].(isActive := false)], email, password, verify).Some?
            == Authenticate(users, email, password, verify).Some?
  {
    var deactivated := users[i := users[i].(isActive := false)];
    assert forall j :: 0 <= j < |users| ==>
      deactivated[j].email == users[j].email && deactivated[j].hashedPassword == users[j].hashedPassword;
  }

  /** The account after the administrator's update: email, role and password
      change only when given and non-empty; `isActive` whenever given. */
  function Merge(u: User, upd: UserUpdate, hash: string -> string): (r: User)
    ensures r.id == u.id
    ensures r.email == (if StrGiven(upd.email) then upd.email.value else u.email)
    ensures r.role == (if StrGiven(upd.role) then upd.role.value else u.role)
    ensures r.isActive == (if upd.isActive.Some? then upd.isActive.value else u.isActive)
    ensures r.hashedPassword == (if StrGiven(upd.password) then hash(upd.password.value) else u.hashedPassword)
  {
    var u1 := if StrGiven(upd.email) then u.(email := upd.email.value) else u;
    var u2 := if StrGiven(upd.role) then u1.(role := upd.role.value) else u1;
    var u3 := if upd.isActive.Some? then u2.(isActive := upd.isActive.value) else u2;
    if StrGiven(upd.password) then u3.(hashedPassword := hash(upd.password.value)) else u3
  }

  /** Whether the update sets the email to one another account already holds. */
  predicate EmailClash(users: seq<User>, i: nat, upd: UserUpdate)
  {
    StrGiven(upd.email) && exists j :: 0 <= j < |users| && j != i && users[j].email == upd.email.value
  }

  /** `update_user`: admin only; 404 for an unknown id; otherwise the merged
      account, unless the new email is another account's, which the UNIQUE
      constraint refuses at commit. */
  function UpdateUser(st: Store, caller: User, userId: int, upd: UserUpdate, hash: string -> string): (r: Result<Store>)
    ensures caller.role != "ADMIN" ==> r == Err(Forbidden)
    ensures caller.role == "ADMIN" && UserAt(st.users, userId).None? ==> r == Err(NotFound(UserRecord))
    ensures r.Ok? <==> caller.role == "ADMIN" && UserAt(st.users, userId).Some?
                       && !EmailClash(st.users, UserAt(st.users, userId).value, upd)
    ensures r.Ok? ==>
              var i := UserAt(st.users, userId).value;
              r.value == st.(users := st.users[i := Merge(st.users[i], upd, hash)])
  {
    if AllowAdmin(caller).Err? then Err(Forbidden)
    else match UserAt(st.users, userId)
      case None => Err(NotFound(UserRecord))
      case Some(i) =>
        if EmailClash(st.users, i, upd) then Err(UniqueViolation)
        else Ok(st.(users := st.users[i := Merge(st.users[i], upd, hash)]))
  }

  /** An update whose every field is missing or empty leaves the store as it was. */
  lemma EmptyUpdateChangesNothing(st: Store, caller: User, userId: int, upd: UserUpdate, hash: string -> string)
    requires !StrGiven(upd.email) && !StrGiven(upd.password) && !StrGiven(upd.role) && upd.isActive.None?
    requires UpdateUser(st, caller, userId, upd, hash).Ok?
    ensures UpdateUser(st, caller, userId, upd, hash).value == st
  {
    var i := UserAt(st.users, userId).value;
    assert Merge(st.users[i], upd, hash) == st.users[i];
    assert st.users[i := st.users[i]] == st.users;
  }

  lemma UpdateKeepsEmailsUnique(st: Store, caller: User, userId: int, upd: UserUpdate, hash: string -> string)
    requires UniqueEmails(st.users) && UpdateUser(st, caller, userId, upd, hash).Ok?
    ensures UniqueEmails(UpdateUser(st, caller, userId, upd, hash).value.users)
  {
    var i := UserAt(st.users, userId).value;
    var u := UpdateUser(st, caller, userId, upd, hash).value.users;
    forall a, b | 0 <= a < b < |u| ensures u[a].email != u[b].email {
      if a != i && b != i {
        assert u[a] == st.users[a] && u[b] == st.users[b];
      }
    }
  }

  /** `change_password`: the token's user must exist (401 otherwise); the
      old password must verify (400 otherwise); then the hash is replaced. */
  function ChangePassword(st: Store, subject: Option<string>, oldPassword: string, newPassword: string,
                          hash: string -> string, verify: (string, string) -> bool): (r: Result<Store>)
    ensures CurrentUser(st.users, subject).Err? ==> r == Err(Unauthorized)
    ensures CurrentUser(st.users, subject).Ok? ==>
              var i := CurrentUser(st.users, subject).value;
              && (!verify(oldPassword, st.users[i].hashedPassword) <==> r == Err(WrongOldPassword))
              && (r.Ok? ==> r.value == st.(users := st.users[i := st.users[i].(hashedPassword := hash(newPassword))]))
    ensures r.Ok? <==> CurrentUser(st.users, subject).Ok?
                       && verify(oldPassword, st.users[CurrentUser(st.users, subject).value].hashedPassword)
  {
    match CurrentUser(st.users, subject)
    case Err(e) => Err(e)
    case Ok(i) =>
      if !verify(oldPassword, st.users[i].hashedPassword) then Err(WrongOldPassword)
      else Ok(st.(users := st.users[i := st.users[i].(hashedPassword := hash(newPassword))]))
  }

  /** After a password change the account logs in with the new password. */
  lemma ChangePasswordThenAuthenticate(st: Store, email: string, oldPassword: string, newPassword: string,
                                       hash: string -> string, verify: (string, string) -> bool)
    requires ChangePassword(st, Some(email), oldPassword, newPassword, hash, verify).Ok?
    requires verify(newPassword, hash(newPassword))
    ensures Authenticate(ChangePassword(st, Some(email), oldPassword, newPassword, hash, verify).value.users,
                         email, newPassword, verify).Some?
  {
    var i := CurrentUser(st.users, Some(email)).value;
    var users := ChangePassword(st, Some(email), oldPassword, newPassword, hash, verify).value.users;
    FirstIndexIs(users, (u: User) => u.email == email, i);
  }
}
