/**
 * The database session the repositories and handlers share: the five tables as
 * sequences of rows in insertion order, each table's id sequence, the lookups the
 * queries perform, and the writes (`add`/`delete` followed by `commit`) together
 * with the checks the database applies when it commits them.
 */
module Store {
  import opened Wrappers
  import opened Seqs
  import opened Schema

  /** Keeps the tokens whose owner is not `userId`. */
  function NotOwnedBy(userId: int): Token -> bool
  {
    (t: Token) => t.userId != userId
  }

  /** Keeps the roles whose id is not `roleId`. */
  function RoleIdIsNot(roleId: int): Role -> bool
  {
    (r: Role) => r.id != roleId
  }

  /** Keeps the services whose id is not `serviceId`. */
  function ServiceIdIsNot(serviceId: int): Service -> bool
  {
    (s: Service) => s.id != serviceId
  }

  /** Keeps the grants that are not of service `serviceId`. */
  function NotOfService(serviceId: int): UserService -> bool
  {
    (g: UserService) => g.serviceId != serviceId
  }

  /** The users table after `role_id` of the user with id `userId` is set to `roleId`. */
  function WithRole(us: seq<User>, userId: int, roleId: int): (r: seq<User>)
    ensures |r| == |us|
  {
    seq(|us|, i requires 0 <= i < |us| => if us[i].id == userId then us[i].(roleId := Some(roleId)) else us[i])
  }

  lemma WithRoleWellFormed(us: seq<User>, userId: int, roleId: int, next: int)
    requires UsersWellFormed(us, next)
    ensures UsersWellFormed(WithRole(us, userId, roleId), next)
  {
    var r := WithRole(us, userId, roleId);
    forall a, b | a in r && b in r && (a.id == b.id || a.username == b.username || a.email == b.email)
      ensures a == b
    {
      var i :| 0 <= i < |r| && r[i] == a;
      var j :| 0 <= j < |r| && r[j] == b;
      assert us[i] in us && us[j] in us;
    }
  }

  class Session {
    var users: seq<User>
    var roles: seq<Role>
    var tokens: seq<Token>
    var services: seq<Service>
    var userServices: seq<UserService>
    // the next value of each table's id sequence
    var nextUserId: int
    var nextRoleId: int
    var nextTokenId: int
    var nextServiceId: int
    var nextUserServiceId: int

    /** The schema's constraints, and no (user, service) pair granted twice. */
    ghost predicate Valid()
      reads this
    {
      UsersWellFormed(users, nextUserId) &&
      RolesWellFormed(roles, nextRoleId) &&
      TokensWellFormed(tokens, nextTokenId) &&
      ServicesWellFormed(services, nextServiceId) &&
      UserServicesWellFormed(userServices, nextUserServiceId)
    }

    /** A freshly created database: every table empty, every id sequence at 1. */
    constructor ()
      ensures Valid()
      ensures users == [] && roles == [] && tokens == [] && services == [] && userServices == []
      ensures nextUserId == 1 && nextRoleId == 1 && nextTokenId == 1 && nextServiceId == 1 && nextUserServiceId == 1
    {
      users, roles, tokens, services, userServices := [], [], [], [], [];
      nextUserId, nextRoleId, nextTokenId, nextServiceId, nextUserServiceId := 1, 1, 1, 1, 1;
    }

    // ---- lookups: each is `query(Table).filter(...).first()` ----

    function UserByUsername(username: string): Option<User>
      reads this
    {
      Find(users, (u: User) => u.username == username)
    }

    function UserById(id: int): Option<User>
      reads this
    {
      Find(users, (u: User) => u.id == id)
    }

    /** A user sharing the username OR the email. */
    function UserClashing(username: string, email: string): Option<User>
      reads this
    {
      Find(users, (u: User) => u.username == username || u.email == email)
    }

    /** `query(User).join(Token).filter(Token.token == token).first()`: a user owning a stored copy of `token`. */
    function TokenHolder(token: string): Option<User>
      reads this
    {
      var ts := tokens;
      Find(users, (u: User) => exists t :: t in ts && t.userId == u.id && t.token == token)
    }

    /** The same join, further restricted to users whose role_id is `roleId`. */
    function TokenHolderWithRole(token: string, roleId: int): Option<User>
      reads this
    {
      var ts := tokens;
      Find(users, (u: User) => u.roleId == Some(roleId) && exists t :: t in ts && t.userId == u.id && t.token == token)
    }

    function TokenOf(userId: int): Option<Token>
      reads this
    {
      Find(tokens, (t: Token) => t.userId == userId)
    }

    function TokenRow(token: string): Option<Token>
      reads this
    {
      Find(tokens, (t: Token) => t.token == token)
    }

    function RoleByName(name: string): Option<Role>
      reads this
    {
      Find(roles, (r: Role) => r.name == name)
    }

    function RoleById(id: int): Option<Role>
      reads this
    {
      Find(roles, (r: Role) => r.id == id)
    }

    function ServiceByName(name: string): Option<Service>
      reads this
    {
      Find(services, (s: Service) => s.name == name)
    }

    function ServiceById(id: int): Option<Service>
      reads this
    {
      Find(services, (s: Service) => s.id == id)
    }

    function UserServiceRow(userId: int, serviceId: int): Option<UserService>
      reads this
    {
      Find(userServices, (g: UserService) => g.userId == userId && g.serviceId == serviceId)
    }

    // ---- writes: `add`/`delete` and `commit` ----

    /**
     * Inserts a user. The commit fails with an integrity error, leaving the table as
     * it was, when role_id is NULL (the column is NOT NULL) or the username or the
     * email is already taken (both columns are UNIQUE).
     */
    method AddUser(username: string, password: string, email: string, roleId: Option<int>) returns (r: Result<User, Fault>)
      requires Valid()
      modifies this`users, this`nextUserId
      ensures Valid()
      ensures r.Failure? <==> roleId.None? || old(UserClashing(username, email)).Some?
      ensures r.Failure? ==> r.error == IntegrityError && users == old(users) && nextUserId == old(nextUserId)
      ensures r.Success? ==> r.value == User(old(nextUserId), username, password, email, roleId)
      ensures r.Success? ==> users == old(users) + [r.value] && nextUserId == old(nextUserId) + 1
    {
      if roleId.None? || UserClashing(username, email).Some? {
        return Failure(IntegrityError);
      }
      var u := User(nextUserId, username, password, email, roleId);
      users := users + [u];
      nextUserId := nextUserId + 1;
      r := Success(u);
    }

    /** Sets role_id of the user with id `userId` (the role itself is not checked: no foreign key is enforced). */
    method UpdateUserRole(userId: int, roleId: int)
      requires Valid()
      modifies this`users
      ensures Valid()
      ensures users == WithRole(old(users), userId, roleId)
    {
      WithRoleWellFormed(users, userId, roleId, nextUserId);
      users := WithRole(users, userId, roleId);
    }

    /** Inserts a token row; nothing is checked about the owner. */
    method AddToken(userId: int, token: string) returns (t: Token)
      requires Valid()
      modifies this`tokens, this`nextTokenId
      ensures Valid()
      ensures t == Token(old(nextTokenId), userId, token)
      ensures tokens == old(tokens) + [t] && nextTokenId == old(nextTokenId) + 1
    {
      t := Token(nextTokenId, userId, token);
      tokens := tokens + [t];
      nextTokenId := nextTokenId + 1;
    }

    /** `query(Token).filter(Token.user_id == userId).delete()`. */
    method DeleteTokensOf(userId: int)
      requires Valid()
      modifies this`tokens
      ensures Valid()
      ensures tokens == Filter(old(tokens), NotOwnedBy(userId))
    {
      tokens := Filter(tokens, NotOwnedBy(userId));
    }

    /** Inserts a role; the commit fails when the name is taken (UNIQUE). */
    method AddRole(name: string) returns (r: Result<Role, Fault>)
      requires Valid()
      modifies this`roles, this`nextRoleId
      ensures Valid()
      ensures r.Failure? <==> old(RoleByName(name)).Some?
      ensures r.Failure? ==> r.error == IntegrityError && roles == old(roles) && nextRoleId == old(nextRoleId)
      ensures r.Success? ==> r.value == Role(old(nextRoleId), name)
      ensures r.Success? ==> roles == old(roles) + [r.value] && nextRoleId == old(nextRoleId) + 1
    {
      if RoleByName(name).Some? {
        return Failure(IntegrityError);
      }
      var role := Role(nextRoleId, name);
      roles := roles + [role];
      nextRoleId := nextRoleId + 1;
      r := Success(role);
    }

    /** Deletes the role with id `roleId`. */
    method DeleteRoleRow(roleId: int)
      requires Valid()
      modifies this`roles
      ensures Valid()
      ensures roles == Filter(old(roles), RoleIdIsNot(roleId))
    {
      roles := Filter(roles, RoleIdIsNot(roleId));
    }

    /** Inserts a service; the commit fails when the name is taken (UNIQUE). */
    method AddService(name: string) returns (r: Result<Service, Fault>)
      requires Valid()
      modifies this`services, this`nextServiceId
      ensures Valid()
      ensures r.Failure? <==> old(ServiceByName(name)).Some?
      ensures r.Failure? ==> r.error == IntegrityError && services == old(services) && nextServiceId == old(nextServiceId)
      ensures r.Success? ==> r.value == Service(old(nextServiceId), name)
      ensures r.Success? ==> services == old(services) + [r.value] && nextServiceId == old(nextServiceId) + 1
    {
      if ServiceByName(name).Some? {
        return Failure(IntegrityError);
      }
      var s := Service(nextServiceId, name);
      services := services + [s];
      nextServiceId := nextServiceId + 1;
      r := Success(s);
    }

    /**
     * Deletes the service with id `serviceId`, and with it every grant of that
     * service: the relationship cascades deletes to user_services.
     */
    method DeleteServiceRow(serviceId: int)
      requires Valid()
      modifies this`services, this`userServices
      ensures Valid()
      ensures services == Filter(old(services), ServiceIdIsNot(serviceId))
      ensures userServices == Filter(old(userServices), NotOfService(serviceId))
    {
      services := Filter(services, ServiceIdIsNot(serviceId));
      userServices := Filter(userServices, NotOfService(serviceId));
    }

    /** Inserts a grant; the table has no constraint on the pair, so the caller makes sure it is new. */
    method AddUserService(userId: int, serviceId: int) returns (g: UserService)
      requires Valid()
      requires UserServiceRow(userId, serviceId).None?
      modifies this`userServices, this`nextUserServiceId
      ensures Valid()
      ensures g == UserService(old(nextUserServiceId), userId, serviceId)
      ensures userServices == old(userServices) + [g] && nextUserServiceId == old(nextUserServiceId) + 1
    {
      g := UserService(nextUserServiceId, userId, serviceId);
      userServices := userServices + [g];
      nextUserServiceId := nextUserServiceId + 1;
    }
  }
}
