/**
 * The user router (user_service/src/routers/user.py): register, login, refresh-token,
 * verify and check-access, each a handler answering with an Outcome.
 */
module UserRouter {
  import opened Wrappers
  import opened Seqs
  import opened Schema
  import opened Store
  import opened Bcrypt
  import opened Jwt
  import TokenTable

  datatype LoginReply = LoginReply(message: string, token: string)
  datatype VerifyReply = VerifyReply(message: string, isValid: bool)
  datatype AccessReply = AccessReply(message: string, hasAccess: bool)

  const DuplicateUser := "User with the same username or email already exists"
  const InvalidCredentials := "Invalid credentials"

  /**
   * register_user, as written: a user sharing the username or the email gives 400;
   * otherwise the row is added with its password hashed but with no role_id, and
   * since users.role_id is NOT NULL the commit fails and nothing catches it, so a
   * registration never succeeds and the table never changes.
   */
  method RegisterUser(db: Session, hasher: Hasher, username: string, password: string, email: string, salt: string)
    returns (out: Outcome<string>)
    requires db.Valid()
    modifies db`users, db`nextUserId
    ensures db.Valid()
    ensures (exists u :: u in old(db.users) && (u.username == username || u.email == email)) ==> out == Raised(400, DuplicateUser)
    ensures !(exists u :: u in old(db.users) && (u.username == username || u.email == email)) ==> out == Crashed
    ensures !out.Done?
    ensures db.users == old(db.users) && db.nextUserId == old(db.nextUserId)
  {
    var existing := db.UserClashing(username, email);
    if existing.Some? {
      return Raised(400, DuplicateUser);
    }
    var hashed := hasher.hash(password, salt);
    var added := db.AddUser(username, hashed, email, None);
    out := if added.Success? then Done("User registered") else Crashed;
  }

  /**
   * register_user with the role_id the row needs: the role the registration policy
   * picks is a parameter. A user sharing the username or the email gives 400;
   * otherwise exactly one user is added, holding the bcrypt hash of the password.
   */
  method RegisterUserWithRole(db: Session, hasher: Hasher, username: string, password: string, email: string, salt: string, roleId: int)
    returns (out: Outcome<string>)
    requires db.Valid()
    modifies db`users, db`nextUserId
    ensures db.Valid()
    ensures (exists u :: u in old(db.users) && (u.username == username || u.email == email)) ==>
      out == Raised(400, DuplicateUser) && db.users == old(db.users) && db.nextUserId == old(db.nextUserId)
    ensures !(exists u :: u in old(db.users) && (u.username == username || u.email == email)) ==>
      out == Done("User registered") &&
      db.users == old(db.users) + [User(old(db.nextUserId), username, hasher.hash(password, salt), email, Some(roleId))] &&
      db.nextUserId == old(db.nextUserId) + 1
  {
    var existing := db.UserClashing(username, email);
    if existing.Some? {
      return Raised(400, DuplicateUser);
    }
    var hashed := hasher.hash(password, salt);
    var added := db.AddUser(username, hashed, email, Some(roleId));
    out := if added.Success? then Done("User registered") else Crashed;
  }

  /**
   * login_user: an unknown username and a wrong password give the same 401. A user
   * who already holds a token gets that token back and nothing changes; otherwise a
   * new token is made and stored.
   */
  method LoginUser(db: Session, hasher: Hasher, username: string, password: string,
                   sign: Claims -> string, now: int, entropy: seq<byte>)
    returns (out: Outcome<LoginReply>)
    requires db.Valid()
    requires |entropy| == RandBytes
    modifies db`tokens, db`nextTokenId
    ensures db.Valid()
    ensures var user := old(db.UserByUsername(username));
      user.None? || !hasher.check(password, user.value.password) ==>
        out == Raised(401, InvalidCredentials) && db.tokens == old(db.tokens) && db.nextTokenId == old(db.nextTokenId)
    ensures var user := old(db.UserByUsername(username));
      user.Some? && hasher.check(password, user.value.password) && old(db.TokenOf(user.value.id)).Some? ==>
        out == Done(LoginReply("User logged in", old(db.TokenOf(user.value.id)).value.token)) &&
        db.tokens == old(db.tokens) && db.nextTokenId == old(db.nextTokenId)
    ensures var user := old(db.UserByUsername(username));
      user.Some? && hasher.check(password, user.value.password) && old(db.TokenOf(user.value.id)).None? ==>
        var token := CreateJwtToken(sign, user.value.id, now, entropy);
        out == Done(LoginReply("User logged in", token)) &&
        db.tokens == old(db.tokens) + [Token(old(db.nextTokenId), user.value.id, token)] &&
        db.nextTokenId == old(db.nextTokenId) + 1
  {
    var user := db.UserByUsername(username);
    if user.None? || !hasher.check(password, user.value.password) {
      return Raised(401, InvalidCredentials);
    }
    var existing := db.TokenOf(user.value.id);
    if existing.Some? {
      return Done(LoginReply("User logged in", existing.value.token));
    }
    var token := CreateJwtToken(sign, user.value.id, now, entropy);
    TokenTable.CreateTokenDb(db, user.value.id, token);
    out := Done(LoginReply("User logged in", token));
  }

  /**
   * refresh_token: the same credential check as login; then every token of the user
   * is deleted and exactly one new token is stored and returned, so afterwards it is
   * the only token the user holds.
   */
  method RefreshToken(db: Session, hasher: Hasher, username: string, password: string,
                      sign: Claims -> string, now: int, entropy: seq<byte>)
    returns (out: Outcome<LoginReply>)
    requires db.Valid()
    requires |entropy| == RandBytes
    modifies db`tokens, db`nextTokenId
    ensures db.Valid()
    ensures var user := old(db.UserByUsername(username));
      user.None? || !hasher.check(password, user.value.password) ==>
        out == Raised(401, InvalidCredentials) && db.tokens == old(db.tokens) && db.nextTokenId == old(db.nextTokenId)
    ensures var user := old(db.UserByUsername(username));
      user.Some? && hasher.check(password, user.value.password) ==>
        var token := CreateJwtToken(sign, user.value.id, now, entropy);
        out == Done(LoginReply("Token refreshed", token)) &&
        db.tokens == Filter(old(db.tokens), NotOwnedBy(user.value.id)) + [Token(old(db.nextTokenId), user.value.id, token)] &&
        db.nextTokenId == old(db.nextTokenId) + 1 &&
        (forall t :: t in db.tokens && t.userId == user.value.id ==> t.token == token) &&
        (forall t :: t in old(db.tokens) && t.userId != user.value.id ==> t in db.tokens)
  {
    var user := db.UserByUsername(username);
    if user.None? || !hasher.check(password, user.value.password) {
      return Raised(401, InvalidCredentials);
    }
    var token := CreateJwtToken(sign, user.value.id, now, entropy);
    db.DeleteTokensOf(user.value.id);
    TokenTable.CreateTokenDb(db, user.value.id, token);
    out := Done(LoginReply("Token refreshed", token));
  }

  /**
   * verify_user: valid exactly when some user holds a stored copy of the token; the
   * token's signature and expiry are never looked at.
   */
  method VerifyUser(db: Session, token: string) returns (out: Outcome<VerifyReply>)
    ensures out.Done? <==> exists u, t :: u in db.users && t in db.tokens && t.token == token && t.userId == u.id
    ensures out.Done? ==> out.value == VerifyReply("User token verified", true)
    ensures !out.Done? ==> out == Raised(401, "Invalid user token")
  {
    var user := TokenTable.VerifyToken(token, db);
    if user.Failure? {
      return Raised(user.error.status, user.error.detail);
    }
    out := Done(VerifyReply("User token verified", true));
  }

  /**
   * check_access_to_service, checking in this order: the token is stored (else 401
   * "Invalid token"), its owner exists (else 401 "User not found"), the service name
   * exists (else 404); then access is granted exactly when the (user, service) pair is.
   */
  method CheckAccessToService(db: Session, serviceName: string, token: string) returns (out: Outcome<AccessReply>)
    requires db.Valid()
    ensures (forall t :: t in db.tokens ==> t.token != token) ==> out == Raised(401, "Invalid token")
    ensures db.TokenRow(token).Some? && (forall u :: u in db.users ==> u.id != db.TokenRow(token).value.userId) ==>
      out == Raised(401, "User not found")
    ensures (db.TokenRow(token).Some? && db.UserById(db.TokenRow(token).value.userId).Some? &&
             (forall s :: s in db.services ==> s.name != serviceName)) ==> out == Raised(404, "Service not found")
    ensures out.Done? ==> (exists t, u, s :: t in db.tokens && t.token == token && u in db.users && u.id == t.userId &&
                             s in db.services && s.name == serviceName &&
                             (out.value.hasAccess <==> exists g :: g in db.userServices && g.userId == u.id && g.serviceId == s.id))
    ensures out.Done? ==> out.value == (if out.value.hasAccess then AccessReply("Access granted", true) else AccessReply("Access denied", false))
    ensures (db.TokenRow(token).Some? && db.UserById(db.TokenRow(token).value.userId).Some? && db.ServiceByName(serviceName).Some?) ==>
      out == Done(if db.UserServiceRow(db.TokenRow(token).value.userId, db.ServiceByName(serviceName).value.id).Some?
                  then AccessReply("Access granted", true) else AccessReply("Access denied", false))
    ensures !out.Crashed?
  {
    var tokenEntry := db.TokenRow(token);
    if tokenEntry.None? {
      return Raised(401, "Invalid token");
    }
    var user := db.UserById(tokenEntry.value.userId);
    if user.None? {
      return Raised(401, "User not found");
    }
    var service := db.ServiceByName(serviceName);
    if service.None? {
      return Raised(404, "Service not found");
    }
    var grant := db.UserServiceRow(user.value.id, service.value.id);
    out := if grant.Some? then Done(AccessReply("Access granted", true)) else Done(AccessReply("Access denied", false));
  }

  // ---- what callers can rely on across several requests ----

  /** Two consecutive logins with the same credentials give the same answer, and so the same token. */
  method LoginTwice(db: Session, hasher: Hasher, username: string, password: string,
                    sign: Claims -> string, now1: int, entropy1: seq<byte>, now2: int, entropy2: seq<byte>)
    returns (first: Outcome<LoginReply>, second: Outcome<LoginReply>)
    requires db.Valid()
    requires |entropy1| == RandBytes && |entropy2| == RandBytes
    modifies db`tokens, db`nextTokenId
    ensures db.Valid()
    ensures second == first
  {
    ghost var user := db.UserByUsername(username);
    first := LoginUser(db, hasher, username, password, sign, now1, entropy1);
    if first.Done? {
      var uid := user.value.id;
      assert db.TokenOf(uid).Some? && db.TokenOf(uid).value.token == first.value.token by {
        if old(db.TokenOf(uid)).None? {
          var t := Token(old(db.nextTokenId), uid, first.value.token);
          assert db.tokens == old(db.tokens) + [t];
          assert t in db.tokens;
          assert forall x :: x in db.tokens && x.userId == uid ==> x == t;
        }
      }
    }
    second := LoginUser(db, hasher, username, password, sign, now2, entropy2);
  }

  /**
   * Refresh for a user who alone holds `prev`, with random bytes that sign to another
   * token: `prev` no longer verifies afterwards, while the refreshed token does.
   */
  method RefreshRevokes(db: Session, hasher: Hasher, username: string, password: string,
                        sign: Claims -> string, now: int, entropy: seq<byte>, prev: string)
    returns (refresh: Outcome<LoginReply>, oldVerified: Outcome<VerifyReply>, newVerified: Outcome<VerifyReply>)
    requires db.Valid()
    requires |entropy| == RandBytes
    requires db.UserByUsername(username).Some? && hasher.check(password, db.UserByUsername(username).value.password)
    requires prev != CreateJwtToken(sign, db.UserByUsername(username).value.id, now, entropy)
    requires forall t :: t in db.tokens && t.token == prev ==> t.userId == db.UserByUsername(username).value.id
    modifies db`tokens, db`nextTokenId
    ensures db.Valid()
    ensures refresh.Done? && refresh.value.token != prev
    ensures oldVerified == Raised(401, "Invalid user token")
    ensures newVerified == Done(VerifyReply("User token verified", true))
  {
    var user := db.UserByUsername(username).value;
    refresh := RefreshToken(db, hasher, username, password, sign, now, entropy);
    assert forall t :: t in db.tokens ==> t.token != prev;
    oldVerified := VerifyUser(db, prev);
    var t :| t in db.tokens && t.userId == user.id && t.token == refresh.value.token;
    assert user in db.users;
    newVerified := VerifyUser(db, refresh.value.token);
  }

  /**
   * Login, then refresh with fresh random bytes: the refreshed token differs from the
   * one login issued, which no longer verifies, while the refreshed one does.
   */
  method RefreshAfterLogin(db: Session, hasher: Hasher, username: string, password: string,
                           sign: Claims -> string, now1: int, entropy1: seq<byte>, now2: int, entropy2: seq<byte>)
    returns (login: Outcome<LoginReply>, refresh: Outcome<LoginReply>, oldVerified: Outcome<VerifyReply>, newVerified: Outcome<VerifyReply>)
    requires db.Valid()
    requires Injective(sign)
    requires |entropy1| == RandBytes && |entropy2| == RandBytes && entropy1 != entropy2
    requires db.UserByUsername(username).Some? && hasher.check(password, db.UserByUsername(username).value.password)
    requires forall t :: t in db.tokens ==> t.userId != db.UserByUsername(username).value.id
    requires forall t :: t in db.tokens ==> t.token != CreateJwtToken(sign, db.UserByUsername(username).value.id, now1, entropy1)
    modifies db`tokens, db`nextTokenId
    ensures db.Valid()
    ensures login.Done? && refresh.Done? && login.value.token != refresh.value.token
    ensures oldVerified == Raised(401, "Invalid user token")
    ensures newVerified == Done(VerifyReply("User token verified", true))
  {
    var user := db.UserByUsername(username).value;
    login := LoginUser(db, hasher, username, password, sign, now1, entropy1);
    DistinctEntropyDistinctTokens(sign, user.id, now1, entropy1, user.id, now2, entropy2);
    refresh, oldVerified, newVerified := RefreshRevokes(db, hasher, username, password, sign, now2, entropy2, login.value.token);
  }

  /**
   * With a sound hasher, a registration that succeeds lets the same username and
   * password log in, and the same registration again fails with 400.
   */
  method RegisterThenLogin(db: Session, hasher: Hasher, username: string, password: string, email: string, salt: string, roleId: int,
                           sign: Claims -> string, now: int, entropy: seq<byte>)
    returns (registered: Outcome<string>, again: Outcome<string>, login: Outcome<LoginReply>)
    requires db.Valid()
    requires Sound(hasher)
    requires |entropy| == RandBytes
    modifies db`users, db`nextUserId, db`tokens, db`nextTokenId
    ensures db.Valid()
    ensures registered.Done? ==> again == Raised(400, DuplicateUser) && login.Done?
  {
    registered := RegisterUserWithRole(db, hasher, username, password, email, salt, roleId);
    ghost var u := User(old(db.nextUserId), username, hasher.hash(password, salt), email, Some(roleId));
    if registered.Done? {
      assert u in db.users;
      assert db.UserByUsername(username) == Some(u);
    }
    again := RegisterUserWithRole(db, hasher, username, password, email, salt, roleId);
    login := LoginUser(db, hasher, username, password, sign, now, entropy);
  }
}
