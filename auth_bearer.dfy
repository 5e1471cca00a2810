/**
 * The gateway's `JWTBearer` dependency (core/rest_api/auth/auth_bearer.py): the checks
 * made on the credentials `HTTPBearer` extracted, and the reading of the token
 * verifier's reply. The verifier's HTTP call is a function parameter from the token
 * to the JSON value it answers with.
 */
module AuthBearer {
  import opened Wrappers

  /** The scheme and the credential string of an Authorization header. */
  datatype Credentials = Credentials(scheme: string, credentials: string)

  /** The verify-jwt endpoint's JSON body: a boolean, or any other JSON value. */
  datatype VerifierReply = JsonBool(value: bool) | JsonOther

  /** Either the accepted credential string or an HTTPException. */
  datatype BearerOutcome = Accepted(token: string) | Rejected(status: int, detail: string)

  /** verify_jwt: the reply when it is a bool; otherwise the function falls off its end and returns None. */
  function VerifyJwt(reply: VerifierReply): (r: Option<bool>)
    ensures r.Some? <==> reply.JsonBool?
    ensures Truthy(r) <==> reply == JsonBool(true)
  {
    if reply.JsonBool? then Some(reply.value) else None
  }

  /** `not x` for the bool-or-None verify_jwt returns: None and False are both falsy. */
  predicate Truthy(v: Option<bool>)
  {
    v == Some(true)
  }

  /**
   * JWTBearer.__call__ on the value `HTTPBearer.__call__` returned. With the default
   * auto_error=True that call raises its own 403 rather than return None, so the None
   * case is reached only by a bearer built with auto_error=False.
   */
  function Call(credentials: Option<Credentials>, verifier: string -> VerifierReply): (r: BearerOutcome)
    ensures r.Accepted? ==> credentials.Some? && credentials.value.scheme == "Bearer" && r.token == credentials.value.credentials
    ensures r.Rejected? ==> (r.status == 403 &&
                             r.detail in {"Invalid authorization code.", "Invalid authentication scheme.", "Invalid token or expired token."})
  {
    if credentials.None? then Rejected(403, "Invalid authorization code.")
    else if credentials.value.scheme != "Bearer" then Rejected(403, "Invalid authentication scheme.")
    else if !Truthy(VerifyJwt(verifier(credentials.value.credentials))) then Rejected(403, "Invalid token or expired token.")
    else Accepted(credentials.value.credentials)
  }

  // ---- properties ----

  /** Accepted exactly for a Bearer credential the verifier answers `true` for, and then the credential string itself. */
  lemma AcceptedExactly(credentials: Option<Credentials>, verifier: string -> VerifierReply)
    ensures Call(credentials, verifier).Accepted? <==>
      credentials.Some? && credentials.value.scheme == "Bearer" && verifier(credentials.value.credentials) == JsonBool(true)
    ensures Call(credentials, verifier).Accepted? ==> Call(credentials, verifier).token == credentials.value.credentials
  {
  }

  /** Every refusal is a 403. */
  lemma RejectionsAre403(credentials: Option<Credentials>, verifier: string -> VerifierReply)
    ensures Call(credentials, verifier).Rejected? ==> Call(credentials, verifier).status == 403
  {
  }

  /** A scheme other than "Bearer" is refused before the verifier is asked: its answer makes no difference. */
  lemma SchemeCheckedFirst(c: Credentials, v1: string -> VerifierReply, v2: string -> VerifierReply)
    requires c.scheme != "Bearer"
    ensures Call(Some(c), v1) == Call(Some(c), v2) == Rejected(403, "Invalid authentication scheme.")
  {
  }

  /** A verifier reply that is not a boolean counts as a refusal, like `false`. */
  lemma NonBooleanReplyRejects(c: Credentials, verifier: string -> VerifierReply)
    requires c.scheme == "Bearer" && !verifier(c.credentials).JsonBool?
    ensures VerifyJwt(verifier(c.credentials)) == None
    ensures Call(Some(c), verifier) == Rejected(403, "Invalid token or expired token.")
  {
  }

  /** A None from `HTTPBearer.__call__` is refused whatever the verifier would say. */
  lemma MissingCredentialsRejected(verifier: string -> VerifierReply)
    ensures Call(None, verifier) == Rejected(403, "Invalid authorization code.")
  {
  }
}
