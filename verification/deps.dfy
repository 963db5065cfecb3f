/** Route guards. `get_current_user` turns the subject of a bearer token into
    a user record; a role checker then admits that user when the role is one
    of the route's allowed roles. Signature checking and expiry of the token
    are not modelled: a token is given by the subject it carries, or none
    when it does not decode. */
module Deps {
  import opened Common
  import opened Records

  /** `get_current_user`: the first user whose email is the token's subject,
      or 401 when the token carries none or nobody has that email. */
  function CurrentUser(users: seq<User>, subject: Option<string>): (r: Result<nat>)
    ensures r.Ok? ==> subject.Some? && r.value < |users| && users[r.value].email == subject.value
    ensures r.Ok? ==> subject.Some? && forall j :: 0 <= j < r.value ==> users[j].email != subject.value
    ensures r.Err? <==> subject.None? || forall j :: 0 <= j < |users| ==> users[j].email != subject.value
    ensures r.Err? ==> r.error == Unauthorized
  {
    match subject
    case None => Err(Unauthorized)
    case Some(email) =>
      match FirstIndex(users, (u: User) => u.email == email)
      case None => Err(Unauthorized)
      case Some(i) => Ok(i)
  }

  const AdminRoles: seq<string> := [ADMIN]
  const TeacherRoles: seq<string> := [TEACHER, ADMIN]

  /** `RoleChecker(allowed)(user)`: the user itself, or 403 Forbidden. */
  function RoleChecker(allowed: seq<string>, user: User): (r: Result<User>)
    ensures r.Ok? <==> exists i :: 0 <= i < |allowed| && allowed[i] == user.role
    ensures r.Ok? ==> r.value == user
    ensures r.Err? ==> r.error == Forbidden
  {
    if user.role in allowed then Ok(user) else Err(Forbidden)
  }

  /** `allow_admin`: admits exactly the role "ADMIN". */
  function AllowAdmin(user: User): (r: Result<User>)
    ensures r.Ok? <==> user.role == "ADMIN"
    ensures r.Ok? ==> r.value == user
    ensures r.Err? ==> r.error == Forbidden
  {
    RoleChecker(AdminRoles, user)
  }

  /** `allow_teacher`: admits exactly the roles "TEACHER" and "ADMIN". */
  function AllowTeacher(user: User): (r: Result<User>)
    ensures r.Ok? <==> user.role == "TEACHER" || user.role == "ADMIN"
    ensures r.Ok? ==> r.value == user
    ensures r.Err? ==> r.error == Forbidden
  {
    RoleChecker(TeacherRoles, user)
  }

  /** Whatever an administrator may do, a teacher-level route admits too. */
  lemma AdminIsTeacherLevel(user: User)
    ensures AllowAdmin(user).Ok? ==> AllowTeacher(user) == AllowAdmin(user)
  {
  }

  /** The default role, and every role other than the two named, is refused by both guards. */
  lemma OtherRolesForbidden(user: User)
    requires user.role != "ADMIN" && user.role != "TEACHER"
    ensures AllowAdmin(user) == Err(Forbidden) && AllowTeacher(user) == Err(Forbidden)
  {
  }
}
