/** `UserRepository` (user_service/src/core/repository/user_repository.py). */
module UserRepo {
  import opened Wrappers
  import opened Seqs
  import opened Schema
  import opened Store

  /** Some role is named "admin". */
  ghost predicate AdminRoleExists(db: Session)
    reads db
  {
    exists a :: a in db.roles && a.name == "admin"
  }

  /** A stored copy of `token` belongs to a user whose role is the role named "admin". */
  ghost predicate HeldByAdmin(db: Session, token: string)
    reads db
  {
    exists a, u, t :: a in db.roles && a.name == "admin" && u in db.users && t in db.tokens &&
      u.roleId == Some(a.id) && t.userId == u.id && t.token == token
  }

  class UserRepository {
    const db: Session

    constructor (db: Session)
      ensures this.db == db
    {
      this.db := db;
    }

    /** is_user_exist: some stored user has the username OR the email. */
    method IsUserExist(username: string, email: string) returns (found: bool)
      ensures found <==> exists u :: u in db.users && (u.username == username || u.email == email)
    {
      found := db.UserClashing(username, email).Some?;
    }

    /** get_user_by_username: the user with that username, or None. */
    method GetUserByUsername(username: string) returns (r: Option<User>)
      requires db.Valid()
      ensures r.Some? ==> r.value in db.users && r.value.username == username
      ensures forall u :: u in db.users && u.username == username ==> r == Some(u)
    {
      r := db.UserByUsername(username);
    }

    /** get_user_by_id: the user with that id, or None. */
    method GetUserById(id: int) returns (r: Option<User>)
      requires db.Valid()
      ensures r.Some? ==> r.value in db.users && r.value.id == id
      ensures forall u :: u in db.users && u.id == id ==> r == Some(u)
    {
      r := db.UserById(id);
    }

    /**
     * is_admin_token: a stored copy of `token` belongs to a user whose role_id is the
     * id of the role named "admin". With no such role the query dereferences None
     * and raises instead of answering.
     */
    method IsAdminToken(token: string) returns (r: Result<bool, Fault>)
      requires db.Valid()
      ensures r.Failure? <==> !AdminRoleExists(db)
      ensures r.Failure? ==> r.error == NoneHasNoId
      ensures r.Success? ==> (r.value <==> HeldByAdmin(db, token))
    {
      var admin := db.RoleByName("admin");
      if admin.None? {
        return Failure(NoneHasNoId);
      }
      r := Success(db.TokenHolderWithRole(token, admin.value.id).Some?);
    }

    /**
     * create_user: adds the caller's row, which receives the next id; a commit that
     * breaks the schema (NULL role_id, username or email taken) raises.
     */
    method CreateUser(username: string, password: string, email: string, roleId: Option<int>) returns (r: Result<User, Fault>)
      requires db.Valid()
      modifies db`users, db`nextUserId
      ensures db.Valid()
      ensures r.Failure? <==> roleId.None? || exists u :: u in old(db.users) && (u.username == username || u.email == email)
      ensures r.Failure? ==> r.error == IntegrityError && db.users == old(db.users) && db.nextUserId == old(db.nextUserId)
      ensures r.Success? ==> r.value == User(old(db.nextUserId), username, password, email, roleId)
      ensures r.Success? ==> db.users == old(db.users) + [r.value] && db.nextUserId == old(db.nextUserId) + 1
    {
      r := db.AddUser(username, password, email, roleId);
    }

    /** get_user_token: the user's first stored token, or None. */
    method GetUserToken(userId: int) returns (r: Option<Token>)
      ensures r.Some? ==> r.value in db.tokens && r.value.userId == userId
      ensures r.Some? ==> (exists i :: 0 <= i < |db.tokens| && db.tokens[i] == r.value &&
                                       forall j :: 0 <= j < i ==> db.tokens[j].userId != userId)
      ensures r.None? <==> forall t :: t in db.tokens ==> t.userId != userId
    {
      r := db.TokenOf(userId);
    }

    /** delete_tokens_by_user_id: every token of the user goes, every other token stays, in order. */
    method DeleteTokensByUserId(userId: int)
      requires db.Valid()
      modifies db`tokens
      ensures db.Valid()
      ensures db.tokens == Filter(old(db.tokens), NotOwnedBy(userId))
      ensures forall t :: t in db.tokens <==> t in old(db.tokens) && t.userId != userId
    {
      db.DeleteTokensOf(userId);
    }

    /** create_user_token: one more (user_id, token) row; the user's earlier tokens stay. */
    method CreateUserToken(userId: int, token: string)
      requires db.Valid()
      modifies db`tokens, db`nextTokenId
      ensures db.Valid()
      ensures db.tokens == old(db.tokens) + [Token(old(db.nextTokenId), userId, token)]
      ensures db.nextTokenId == old(db.nextTokenId) + 1
    {
      var _ := db.AddToken(userId, token);
    }

    /** verify_user_token: the owner of a stored copy of `token`; 401 "Invalid user token" when there is none. */
    method VerifyUserToken(token: string) returns (r: Result<User, Fault>)
      ensures r.Success? ==> r.value in db.users && exists t :: t in db.tokens && t.userId == r.value.id && t.token == token
      ensures r.Failure? <==> forall u, t :: u in db.users && t in db.tokens && t.token == token ==> t.userId != u.id
      ensures r.Failure? ==> r.error == HttpError(401, "Invalid user token")
    {
      var holder := db.TokenHolder(token);
      if holder.None? {
        return Failure(HttpError(401, "Invalid user token"));
      }
      r := Success(holder.value);
    }

    /** is_any_admin_exists: some user has role_id 1, the id and not the name of the admin role. */
    method IsAnyAdminExists() returns (found: bool)
      ensures found <==> exists u :: u in db.users && u.roleId == Some(1)
    {
      found := Find(db.users, (u: User) => u.roleId == Some(1)).Some?;
    }
  }
}
