/**
 * The role router (user_service/src/routers/role.py). Creating, deleting and
 * assigning roles are gated by `check_admin_token`; listing roles and reading a
 * user's role are not. Several handlers catch every exception, including their own
 * HTTPException, and answer 500 instead.
 */
module RoleRouter {
  import opened Wrappers
  import opened Schema
  import opened Store
  import opened UserRepo
  import opened RoleRepo

  datatype RoleDeleteReply = RoleDeleteReply(deleted: bool)

  const InternalError := "Internal server error"

  /**
   * check_admin_token: passes for a token held by an administrator. Every other token
   * gets 401 "Invalid token": the "Not an administrator token" exception is caught by
   * the handler's own `except` and replaced. With no role named "admin" the first
   * lookup, made before the `try`, dereferences None and nothing catches it.
   */
  method CheckAdminToken(db: Session, token: string) returns (out: Outcome<()>)
    requires db.Valid()
    ensures !AdminRoleExists(db) ==> out == Crashed
    ensures AdminRoleExists(db) && HeldByAdmin(db, token) ==> out == Done(())
    ensures AdminRoleExists(db) && !HeldByAdmin(db, token) ==> out == Raised(401, "Invalid token")
  {
    var users := new UserRepository(db);
    var printed := users.IsAdminToken(token);  // evaluated outside the try
    if printed.Failure? {
      return Crashed;
    }
    var isAdmin := users.IsAdminToken(token);
    if isAdmin.Failure? || !isAdmin.value {
      // "Not an administrator token", or any other exception: caught and replaced
      return Raised(401, "Invalid token");
    }
    out := Done(());
  }

  /** get_all_roles: every role, in table order. */
  method GetAllRoles(db: Session) returns (out: Outcome<seq<Role>>)
    ensures out == Done(db.roles)
  {
    var roles := new RoleRepository(db);
    var all := roles.GetAllRoles();
    out := Done(all);
  }

  /**
   * create_role: behind the admin check, a new name creates and returns the role; a
   * name already taken raises 400, which the handler's `except` turns into 500.
   */
  method CreateRole(db: Session, token: string, name: string) returns (out: Outcome<Role>)
    requires db.Valid()
    modifies db`roles, db`nextRoleId
    ensures db.Valid()
    ensures old(!AdminRoleExists(db)) ==> out == Crashed && db.roles == old(db.roles)
    ensures old(AdminRoleExists(db) && !HeldByAdmin(db, token)) ==> out == Raised(401, "Invalid token") && db.roles == old(db.roles)
    ensures old(HeldByAdmin(db, token)) && (exists r :: r in old(db.roles) && r.name == name) ==>
      out == Raised(500, InternalError) && db.roles == old(db.roles)
    ensures old(HeldByAdmin(db, token)) && !(exists r :: r in old(db.roles) && r.name == name) ==>
      out == Done(Role(old(db.nextRoleId), name)) && db.roles == old(db.roles) + [Role(old(db.nextRoleId), name)] &&
      db.nextRoleId == old(db.nextRoleId) + 1
    ensures db.roles == old(db.roles) ==> db.nextRoleId == old(db.nextRoleId)
  {
    var gate := CheckAdminToken(db, token);
    if !gate.Done? {
      return if gate.Crashed? then Crashed else Raised(gate.status, gate.detail);
    }
    var roles := new RoleRepository(db);
    var taken := roles.IsRoleExist(name);
    if taken {
      // HTTPException(400, "Role with the same name already exists"), caught below
      return Raised(500, InternalError);
    }
    var created := roles.CreateRole(name);
    out := if created.Success? then Done(created.value) else Raised(500, InternalError);
  }

  /**
   * delete_role: behind the admin check, an existing id is deleted and the answer is
   * deleted=True; for an unknown id the 404 raised is turned into 500.
   */
  method DeleteRole(db: Session, token: string, roleId: int) returns (out: Outcome<RoleDeleteReply>)
    requires db.Valid()
    modifies db`roles
    ensures db.Valid()
    ensures old(!AdminRoleExists(db)) ==> out == Crashed && db.roles == old(db.roles)
    ensures old(AdminRoleExists(db) && !HeldByAdmin(db, token)) ==> out == Raised(401, "Invalid token") && db.roles == old(db.roles)
    ensures old(HeldByAdmin(db, token)) && (exists r :: r in old(db.roles) && r.id == roleId) ==>
      out == Done(RoleDeleteReply(true)) && (forall r :: r in db.roles <==> r in old(db.roles) && r.id != roleId)
    ensures old(HeldByAdmin(db, token)) && !(exists r :: r in old(db.roles) && r.id == roleId) ==>
      out == Raised(500, InternalError) && db.roles == old(db.roles)
  {
    var gate := CheckAdminToken(db, token);
    if !gate.Done? {
      return if gate.Crashed? then Crashed else Raised(gate.status, gate.detail);
    }
    var roles := new RoleRepository(db);
    var deleted := roles.DeleteRole(roleId);
    if !deleted {
      // HTTPException(404, "Role not found"), caught below
      return Raised(500, InternalError);
    }
    out := Done(RoleDeleteReply(true));
  }

  /**
   * get_user_roles: the role of the user; 404 "User not found" both when the user is
   * unknown and when the user's role_id names no role.
   */
  method GetUserRoles(db: Session, userId: int) returns (out: Outcome<Role>)
    requires db.Valid()
    ensures out.Done? <==> exists u, r :: u in db.users && r in db.roles && u.id == userId && u.roleId == Some(r.id)
    ensures out.Done? ==> out.value in db.roles && exists u :: u in db.users && u.id == userId && u.roleId == Some(out.value.id)
    ensures !out.Done? ==> out == Raised(404, "User not found")
  {
    var roles := new RoleRepository(db);
    var roleId := roles.GetUserRoleById(userId);
    // get_role_by_id(None) filters on `id == NULL`, which matches no row
    var role := None;
    if roleId.Some? {
      role := roles.GetRoleById(roleId.value);
    }
    if role.None? {
      return Raised(404, "User not found");
    }
    out := Done(role.value);
  }

  /**
   * assign_role_to_user: behind the admin check, an unknown user gives 404 "User not
   * found", then an unknown role 404 "Role not found"; otherwise the user's role is
   * set and the answer is True.
   */
  method AssignRoleToUser(db: Session, token: string, userId: int, roleId: int) returns (out: Outcome<bool>)
    requires db.Valid()
    modifies db`users
    ensures db.Valid()
    ensures old(!AdminRoleExists(db)) ==> out == Crashed && db.users == old(db.users)
    ensures old(AdminRoleExists(db) && !HeldByAdmin(db, token)) ==> out == Raised(401, "Invalid token") && db.users == old(db.users)
    ensures old(HeldByAdmin(db, token)) && !(exists u :: u in old(db.users) && u.id == userId) ==>
      out == Raised(404, "User not found") && db.users == old(db.users)
    ensures old(HeldByAdmin(db, token)) && (exists u :: u in old(db.users) && u.id == userId) && !(exists r :: r in db.roles && r.id == roleId) ==>
      out == Raised(404, "Role not found") && db.users == old(db.users)
    ensures old(HeldByAdmin(db, token)) && (exists u :: u in old(db.users) && u.id == userId) && (exists r :: r in db.roles && r.id == roleId) ==>
      out == Done(true) && db.users == WithRole(old(db.users), userId, roleId) &&
      forall u :: u in db.users && u.id == userId ==> u.roleId == Some(roleId)
  {
    var gate := CheckAdminToken(db, token);
    if !gate.Done? {
      return if gate.Crashed? then Crashed else Raised(gate.status, gate.detail);
    }
    var roles := new RoleRepository(db);
    var users := new UserRepository(db);
    var user := users.GetUserById(userId);
    if user.None? {
      return Raised(404, "User not found");
    }
    var role := roles.GetRoleById(roleId);
    if role.None? {
      return Raised(404, "Role not found");
    }
    var _ := roles.AssignRoleToUser(userId, roleId);
    out := Done(true);
  }
}
