/**
 * The gateway's `route_service` wrapper (core/rest_api/modules/route_service.py): how
 * the upstream request is built from the inbound one, and how the upstream call's
 * outcome becomes the gateway's reply. The call itself (`make_request`: aiohttp with
 * a timeout) is a function parameter from the request to its outcome.
 */
module RouteService {
  import opened Wrappers

  type Dict = map<string, string>

  /** The request sent upstream. */
  datatype UpstreamRequest = UpstreamRequest(url: string, verb: string, params: Option<Dict>, data: Option<Dict>, headers: Option<Dict>)

  /** How `make_request` ended: a parsed JSON body with its status, or one of the exceptions the wrapper tells apart. */
  datatype Upstream<B> =
    | Replied(body: B, status: int)
    | ConnectorError      // aiohttp ClientConnectorError
    | ContentTypeError    // aiohttp ContentTypeError: the reply's Content-Type is not JSON
    | OtherError          // anything else

  /** An HTTPException's detail: a fixed text, or the upstream's own payload. */
  datatype Detail<B> = Text(text: string) | Payload(body: B)

  /**
   * The gateway's reply: the upstream payload as the response body, an HTTPException,
   * or an exception nothing caught (the framework's plain 500).
   */
  datatype Reply<B> = Forwarded(body: B) | Failed(status: int, detail: Detail<B>, headers: Dict) | Crashed

  const BearerChallenge: Dict := map["WWW-Authenticate" := "Bearer"]

  function LowerChar(c: char): char
  {
    if 'A' <= c <= 'Z' then (c as int + 32) as char else c
  }

  /** `str.lower()` on the ASCII letters an HTTP method is spelt with. */
  function Lower(s: string): string
  {
    seq(|s|, i requires 0 <= i < |s| => LowerChar(s[i]))
  }

  /** `d.get(key)`. */
  function Get(d: map<string, Dict>, key: string): Option<Dict>
  {
    if key in d then Some(d[key]) else None
  }

  /**
   * The upstream request: the service's base URL followed by the route's path, the
   * inbound method lower-cased, and params, data and headers taken from the dict the
   * route's handler returned (`built`; None when it returned nothing, read as `{}`).
   */
  function BuildRequest(serviceUrl: string, path: string, inboundMethod: string, built: Option<map<string, Dict>>): (r: UpstreamRequest)
    ensures |r.verb| == |inboundMethod| && Lower(r.verb) == r.verb
    ensures forall i :: 0 <= i < |inboundMethod| && !('A' <= inboundMethod[i] <= 'Z') ==> r.verb[i] == inboundMethod[i]
  {
    var d := if built.Some? then built.value else map[];
    UpstreamRequest(serviceUrl + path, Lower(inboundMethod), Get(d, "params"), Get(d, "data"), Get(d, "headers"))
  }

  /** The reply for an upstream outcome, given the status the route is configured with. */
  function Respond<B>(statusCode: int, outcome: Upstream<B>): (r: Reply<B>)
    ensures r.Crashed? <==> outcome.OtherError?
    ensures r.Failed? && r.detail.Payload? ==>
      outcome.Replied? && r.status == outcome.status && r.status != statusCode && r.detail.body == outcome.body
    ensures r.Failed? && r.detail.Text? ==> !outcome.Replied? && (r.status == 503 || r.status == 500) && r.headers == BearerChallenge
  {
    match outcome
    case ConnectorError => Failed(503, Text("Service is unavailable."), BearerChallenge)
    case ContentTypeError => Failed(500, Text("Service error."), BearerChallenge)
    case OtherError => Crashed  // printed only; the status is then read while still unbound
    case Replied(body, status) =>
      if status != statusCode then Failed(status, Payload(body), map[]) else Forwarded(body)
  }

  /** The whole wrapper: build the request, send it, turn the outcome into the reply. */
  function Route<B>(serviceUrl: string, path: string, statusCode: int, inboundMethod: string,
                    built: Option<map<string, Dict>>, send: UpstreamRequest -> Upstream<B>): (r: Reply<B>)
    ensures var answer := send(BuildRequest(serviceUrl, path, inboundMethod, built));
      r.Forwarded? ==> answer.Replied? && answer.status == statusCode && r.body == answer.body
  {
    Respond(statusCode, send(BuildRequest(serviceUrl, path, inboundMethod, built)))
  }

  // ---- properties ----

  /** The request goes to the base URL followed by the path, with a method that has no upper-case letter. */
  lemma RequestTarget(serviceUrl: string, path: string, inboundMethod: string, built: Option<map<string, Dict>>)
    ensures var r := BuildRequest(serviceUrl, path, inboundMethod, built);
      r.url[..|serviceUrl|] == serviceUrl && r.url[|serviceUrl|..] == path &&
      |r.verb| == |inboundMethod| && forall i :: 0 <= i < |r.verb| ==> !('A' <= r.verb[i] <= 'Z')
  {
  }

  /** Lower-casing twice is lower-casing once, so "GET" and "get" are sent the same way. */
  lemma LowerIdempotent(s: string)
    ensures Lower(Lower(s)) == Lower(s)
  {
  }

  lemma MethodCaseIrrelevant(serviceUrl: string, path: string, inboundMethod: string, built: Option<map<string, Dict>>)
    ensures BuildRequest(serviceUrl, path, Lower(inboundMethod), built) == BuildRequest(serviceUrl, path, inboundMethod, built)
  {
    LowerIdempotent(inboundMethod);
  }

  /** A handler that returns nothing sends the same request as one that returns an empty dict: no params, data or headers. */
  lemma NothingBuiltIsEmpty(serviceUrl: string, path: string, inboundMethod: string)
    ensures BuildRequest(serviceUrl, path, inboundMethod, None) == BuildRequest(serviceUrl, path, inboundMethod, Some(map[]))
    ensures var r := BuildRequest(serviceUrl, path, inboundMethod, None); r.params.None? && r.data.None? && r.headers.None?
  {
  }

  /** Params, data and headers are passed on exactly as the handler supplied them. */
  lemma PartsPassedOn(serviceUrl: string, path: string, inboundMethod: string, d: map<string, Dict>)
    ensures var r := BuildRequest(serviceUrl, path, inboundMethod, Some(d));
      ("params" in d ==> r.params == Some(d["params"])) && ("params" !in d ==> r.params.None?) &&
      ("data" in d ==> r.data == Some(d["data"])) && ("data" !in d ==> r.data.None?) &&
      ("headers" in d ==> r.headers == Some(d["headers"])) && ("headers" !in d ==> r.headers.None?)
  {
  }

  /** The upstream payload is forwarded exactly when the upstream answered with the configured status, and then unchanged. */
  lemma ForwardedExactlyOnConfiguredStatus<B>(statusCode: int, outcome: Upstream<B>)
    ensures Respond(statusCode, outcome).Forwarded? <==> outcome.Replied? && outcome.status == statusCode
    ensures Respond(statusCode, outcome).Forwarded? ==> Respond(statusCode, outcome).body == outcome.body
  {
  }

  /** Any other upstream status is surfaced as the error status, with the upstream payload as the detail. */
  lemma OtherStatusPassedThrough<B>(statusCode: int, body: B, status: int)
    requires status != statusCode
    ensures Respond(statusCode, Replied(body, status)) == Failed(status, Payload(body), map[])
  {
  }

  /** A failed call never yields a forwarded body: 503 when unreachable, 500 when unparsable, an unhandled fault otherwise. */
  lemma FailedCallsAreErrors<B>(statusCode: int, outcome: Upstream<B>)
    requires !outcome.Replied?
    ensures !Respond(statusCode, outcome).Forwarded?
    ensures outcome.ConnectorError? ==> Respond(statusCode, outcome) == Failed(503, Text("Service is unavailable."), map["WWW-Authenticate" := "Bearer"])
    ensures outcome.ContentTypeError? ==> Respond(statusCode, outcome) == Failed(500, Text("Service error."), map["WWW-Authenticate" := "Bearer"])
    ensures outcome.OtherError? ==> Respond(statusCode, outcome).Crashed?
  {
  }
}
