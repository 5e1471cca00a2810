/** `RoleRepository` (user_service/src/core/repository/role_repository.py). */
module RoleRepo {
  import opened Wrappers
  import opened Seqs
  import opened Schema
  import opened Store

  /** Some role in `roles` is named `name`. */
  predicate NameTaken(roles: seq<Role>, name: string)
  {
    exists x :: x in roles && x.name == name
  }

  /** A name taken in `r0 + created`, but by none of `created`, was taken in `r0`. */
  lemma TakenBefore(r0: seq<Role>, created: seq<Role>, name: string)
    requires NameTaken(r0 + created, name)
    requires forall x :: x in created ==> x.name != name
    ensures NameTaken(r0, name)
  {
    var x :| x in r0 + created && x.name == name;
    assert x in r0;
  }

  /**
   * What create_default_roles leaves behind, run on `r0` with next id `n` because the
   * two names were not both taken, read as the seeding step's outcome.
   */
  lemma SeededRoles(r0: seq<Role>, n: int, roles: seq<Role>, next: int, r: Result<(), Fault>)
    requires !(NameTaken(r0, "admin") && NameTaken(r0, "user"))
    requires !NameTaken(r0, "admin") && !NameTaken(r0, "user") ==>
      r == Success(()) && roles == r0 + [Role(n, "admin"), Role(n + 1, "user")] && next == n + 2
    requires NameTaken(r0, "admin") ==> r == Failure(IntegrityError) && roles == r0 && next == n
    requires !NameTaken(r0, "admin") && NameTaken(r0, "user") ==>
      r == Failure(IntegrityError) && roles == r0 + [Role(n, "admin")] && next == n + 1
    ensures r0 == [] && n == 1 ==> r == Success(()) && roles == [Role(1, "admin"), Role(2, "user")]
    ensures r.Failure? <==> NameTaken(r0, "admin") != NameTaken(r0, "user")
    ensures r.Success? ==> NameTaken(roles, "admin") && NameTaken(roles, "user")
    ensures NameTaken(r0, "admin") ==> roles == r0 && next == n
    ensures var userTaken := NameTaken(r0, "user");
      !NameTaken(r0, "admin") ==>
        roles == r0 + [Role(n, "admin")] + (if userTaken then [] else [Role(n + 1, "user")]) &&
        next == n + (if userTaken then 1 else 2)
  {
    if r.Success? {
      var k := |roles|;
      assert roles[k - 2] in roles && roles[k - 2].name == "admin";
      assert roles[k - 1] in roles && roles[k - 1].name == "user";
    } else if !NameTaken(r0, "admin") {
      assert r0 + [Role(n, "admin")] + [] == r0 + [Role(n, "admin")];
    }
  }

  /** The roles `create_default_roles` creates, in order. */
  const DefaultRoles: seq<string> := ["admin", "user"]

  class RoleRepository {
    const db: Session

    constructor (db: Session)
      ensures this.db == db
    {
      this.db := db;
    }

    /** create_role: a new role with the next id; a name already taken makes the commit fail (UNIQUE). */
    method CreateRole(name: string) returns (r: Result<Role, Fault>)
      requires db.Valid()
      modifies db`roles, db`nextRoleId
      ensures db.Valid()
      ensures r.Failure? <==> old(NameTaken(db.roles, name))
      ensures r.Failure? ==> r.error == IntegrityError && db.roles == old(db.roles) && db.nextRoleId == old(db.nextRoleId)
      ensures r.Success? ==> r.value == Role(old(db.nextRoleId), name) && r.value !in old(db.roles)
      ensures r.Success? ==> db.roles == old(db.roles) + [r.value] && db.nextRoleId == old(db.nextRoleId) + 1
    {
      r := db.AddRole(name);
    }

    /** delete_role: True and that role removed when the id exists; False and no change otherwise. */
    method DeleteRole(roleId: int) returns (deleted: bool)
      requires db.Valid()
      modifies db`roles
      ensures db.Valid()
      ensures deleted <==> exists x :: x in old(db.roles) && x.id == roleId
      ensures forall x :: x in db.roles <==> x in old(db.roles) && x.id != roleId
      ensures deleted ==> db.roles == Filter(old(db.roles), RoleIdIsNot(roleId))
      ensures !deleted ==> db.roles == old(db.roles)
    {
      var role := db.RoleById(roleId);
      if role.Some? {
        db.DeleteRoleRow(roleId);
        return true;
      }
      FilterKeepsAll(db.roles, RoleIdIsNot(roleId));
      return false;
    }

    /** is_role_exist: some role has that name. */
    method IsRoleExist(name: string) returns (found: bool)
      ensures found <==> exists x :: x in db.roles && x.name == name
    {
      found := db.RoleByName(name).Some?;
    }

    /** get_all_roles: every stored role, in table order. */
    method GetAllRoles() returns (all: seq<Role>)
      ensures all == db.roles
    {
      all := db.roles;
    }

    /**
     * assign_role_to_user: when the user exists, sets that user's role_id (whether or
     * not the role exists) and answers True; otherwise answers False and changes nothing.
     */
    method AssignRoleToUser(userId: int, roleId: int) returns (ok: bool)
      requires db.Valid()
      modifies db`users
      ensures db.Valid()
      ensures ok <==> exists u :: u in old(db.users) && u.id == userId
      ensures !ok ==> db.users == old(db.users)
      ensures ok ==> db.users == WithRole(old(db.users), userId, roleId)
      ensures forall u :: u in old(db.users) && u.id == userId ==> u.(roleId := Some(roleId)) in db.users
      ensures forall u :: u in db.users && u.id == userId ==> u.roleId == Some(roleId)
      ensures forall u :: u in old(db.users) && u.id != userId ==> u in db.users
    {
      var user := db.UserById(userId);
      if user.Some? {
        db.UpdateUserRole(userId, roleId);
        forall u | u in old(db.users) && u.id == userId ensures u.(roleId := Some(roleId)) in db.users {
          var i :| 0 <= i < |old(db.users)| && old(db.users)[i] == u;
          assert db.users[i] == u.(roleId := Some(roleId));
        }
        forall u | u in old(db.users) && u.id != userId ensures u in db.users {
          var i :| 0 <= i < |old(db.users)| && old(db.users)[i] == u;
          assert db.users[i] == u;
        }
        return true;
      }
      return false;
    }

    /** get_role_by_id: the role with that id, or None. */
    method GetRoleById(roleId: int) returns (r: Option<Role>)
      requires db.Valid()
      ensures r.Some? ==> r.value in db.roles && r.value.id == roleId
      ensures forall x :: x in db.roles && x.id == roleId ==> r == Some(x)
    {
      r := db.RoleById(roleId);
    }

    /** get_role_by_name: the role with that name, or None. */
    method GetRoleByName(name: string) returns (r: Option<Role>)
      requires db.Valid()
      ensures r.Some? ==> r.value in db.roles && r.value.name == name
      ensures forall x :: x in db.roles && x.name == name ==> r == Some(x)
    {
      r := db.RoleByName(name);
    }

    /** get_user_role_by_id: the user's current role_id, or None for an unknown user. */
    method GetUserRoleById(userId: int) returns (r: Option<int>)
      requires db.Valid()
      ensures r.Some? <==> exists u :: u in db.users && u.id == userId
      ensures forall u :: u in db.users && u.id == userId ==> r == u.roleId
    {
      var user := db.UserById(userId);
      if user.Some? {
        return user.value.roleId;
      }
      return None;
    }

    /** is_default_roles_exists: both "admin" and "user" exist. */
    method IsDefaultRolesExists() returns (both: bool)
      ensures both <==> (exists x :: x in db.roles && x.name == "admin") && (exists x :: x in db.roles && x.name == "user")
    {
      var admin := db.RoleByName("admin");
      var user := db.RoleByName("user");
      both := admin.Some? && user.Some?;
    }

    /**
     * create_default_roles: creates "admin", then "user", without asking whether they
     * exist; the first name already taken makes its commit fail and the loop stop there.
     */
    method CreateDefaultRoles() returns (r: Result<(), Fault>)
      requires db.Valid()
      modifies db`roles, db`nextRoleId
      ensures db.Valid()
      ensures var n := old(db.nextRoleId);
        !old(NameTaken(db.roles, "admin")) && !old(NameTaken(db.roles, "user")) ==>
          r == Success(()) && db.roles == old(db.roles) + [Role(n, "admin"), Role(n + 1, "user")] && db.nextRoleId == n + 2
      ensures old(NameTaken(db.roles, "admin")) ==>
        r == Failure(IntegrityError) && db.roles == old(db.roles) && db.nextRoleId == old(db.nextRoleId)
      ensures var n := old(db.nextRoleId);
        !old(NameTaken(db.roles, "admin")) && old(NameTaken(db.roles, "user")) ==>
          r == Failure(IntegrityError) && db.roles == old(db.roles) + [Role(n, "admin")] && db.nextRoleId == n + 1
    {
      ghost var r0, n := db.roles, db.nextRoleId;
      ghost var created: seq<Role> := [];
      assert DefaultRoles[0] == "admin" && DefaultRoles[1] == "user";
      var i := 0;
      while i < |DefaultRoles|
        invariant 0 <= i <= |DefaultRoles| && |created| == i
        invariant db.Valid()
        invariant db.roles == r0 + created && db.nextRoleId == n + i
        invariant forall k :: 0 <= k < i ==> created[k] == Role(n + k, DefaultRoles[k]) && !NameTaken(r0, DefaultRoles[k])
      {
        var role := CreateRole(DefaultRoles[i]);
        if role.Failure? {
          if i == 0 {
            assert db.roles == r0 + [] == r0;
          } else {
            TakenBefore(r0, created, "user");
          }
          return Failure(role.error);
        }
        created := created + [role.value];
        i := i + 1;
      }
      assert created == [Role(n, "admin"), Role(n + 1, "user")];
      r := Success(());
    }

    /**
     * The admin panel's start-up step (user_service/src/config/admin_panel.py): the
     * default roles are created unless both already exist. On a fresh store "admin"
     * gets id 1 and "user" id 2; when both exist nothing changes.
     */
    method SeedDefaultRoles() returns (r: Result<(), Fault>)
      requires db.Valid()
      modifies db`roles, db`nextRoleId
      ensures db.Valid()
      ensures old(db.roles) == [] && old(db.nextRoleId) == 1 ==> r == Success(()) && db.roles == [Role(1, "admin"), Role(2, "user")]
      ensures old(NameTaken(db.roles, "admin") && NameTaken(db.roles, "user")) ==>
        r == Success(()) && db.roles == old(db.roles) && db.nextRoleId == old(db.nextRoleId)
      ensures r.Failure? <==> old(NameTaken(db.roles, "admin")) != old(NameTaken(db.roles, "user"))
      ensures r.Success? ==> NameTaken(db.roles, "admin") && NameTaken(db.roles, "user")
      ensures old(NameTaken(db.roles, "admin")) ==> db.roles == old(db.roles) && db.nextRoleId == old(db.nextRoleId)
      ensures var n := old(db.nextRoleId); var userTaken := old(NameTaken(db.roles, "user"));
        !old(NameTaken(db.roles, "admin")) ==>
          db.roles == old(db.roles) + [Role(n, "admin")] + (if userTaken then [] else [Role(n + 1, "user")]) &&
          db.nextRoleId == n + (if userTaken then 1 else 2)
    {
      ghost var r0, n := db.roles, db.nextRoleId;
      var both := IsDefaultRolesExists();
      if !both {
        r := CreateDefaultRoles();
        SeededRoles(r0, n, db.roles, db.nextRoleId, r);
      } else {
        r := Success(());
      }
    }

    /** After create_role(name), whether it created the row or hit the taken name, is_role_exist(name) holds. */
    method CreateRoleThenCheck(name: string) returns (found: bool)
      requires db.Valid()
      modifies db`roles, db`nextRoleId
      ensures found
    {
      var created := CreateRole(name);
      found := IsRoleExist(name);
      assert created.Success? ==> created.value in db.roles;
    }
  }
}
