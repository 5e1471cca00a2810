/**
 * The token helpers the user router imports (User-service/core/database/token_table.py,
 * the only copy whose bodies are visible): storing a token and resolving one to its owner.
 */
module TokenTable {
  import opened Wrappers
  import opened Schema
  import opened Store

  /** create_token_db: one more (user_id, token) row; nothing is removed. */
  method CreateTokenDb(db: Session, userId: int, token: string)
    requires db.Valid()
    modifies db`tokens, db`nextTokenId
    ensures db.Valid()
    ensures db.tokens == old(db.tokens) + [Token(old(db.nextTokenId), userId, token)]
    ensures db.nextTokenId == old(db.nextTokenId) + 1
  {
    var _ := db.AddToken(userId, token);
  }

  /** verify_token: the owner of a stored copy of `token`; 401 "Invalid user token" when there is none. */
  method VerifyToken(token: string, db: Session) returns (r: Result<User, Fault>)
    ensures r.Success? ==> r.value in db.users && exists t :: t in db.tokens && t.userId == r.value.id && t.token == token
    ensures r.Failure? <==> forall u, t :: u in db.users && t in db.tokens && t.token == token ==> t.userId != u.id
    ensures r.Failure? ==> r.error == HttpError(401, "Invalid user token")
  {
    var holder := db.TokenHolder(token);
    if holder.None? {
      return Failure(HttpError(401, "Invalid user token"));
    }
    r := Success(holder.value);
  }
}
