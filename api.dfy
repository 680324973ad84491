/**
 * The API client of frontend/utils/api.ts. The environment lookup and the
 * `fetch` exchange are inputs: the base-URL override is an `Option<string>`,
 * and what the network returns is an `Exchange` value.
 */
module Api {
  import opened Wrappers

  const DEFAULT_BASE_URL: string := "http://localhost:8000"
  const ANALYZE_PATH: string := "/analyze"
  const FAILURE_PREFIX: string := "Analysis failed: "

  /** A value thrown by a rejected promise: an `Error` object with its message, or anything else. */
  datatype Thrown = ErrorObject(message: string) | NonErrorValue

  /** What `response.json()` yields for a response body: the parsed value, or the value it rejects with. */
  datatype Body<B> = Parsed(value: B) | Unparsable(reason: Thrown)

  /** The part of a `fetch` Response the client looks at. */
  datatype Response<B> = Response(ok: bool, statusText: string, body: Body<B>)

  /** How the `fetch` call ends: a response arrives, or the call itself rejects. */
  datatype Exchange<B> = Delivered(response: Response<B>) | TransportFailed(reason: Thrown)

  /** How the promise returned by `analyzeContent` settles. */
  datatype Outcome<B> = Resolved(value: B) | Rejected(reason: Thrown)

  /** The request `analyzeContent` issues; `body` is the object that is JSON-serialised. */
  datatype HttpRequest = HttpRequest(verb: string, target: string, contentType: string, body: map<string, string>)

  /**
   * `NEXT_PUBLIC_API_URL || 'http://localhost:8000'`: JavaScript's `||` treats
   * both an absent variable and the empty string as falsy.
   */
  function BaseUrl(env: Option<string>): (r: string)
    ensures r != []
    ensures env.Some? && env.value != [] ==> r == env.value
    ensures env.None? || env.value == [] ==> r == DEFAULT_BASE_URL
  {
    match env
    case Some(v) => if v != [] then v else DEFAULT_BASE_URL
    case None => DEFAULT_BASE_URL
  }

  /** The POST request sent for `data`, to the base URL followed by `/analyze`. */
  function AnalyzeRequest(env: Option<string>, data: map<string, string>): (r: HttpRequest)
    ensures r.verb == "POST" && r.contentType == "application/json"
    ensures |r.target| == |BaseUrl(env)| + |ANALYZE_PATH|
    ensures r.target[..|BaseUrl(env)|] == BaseUrl(env) && r.target[|BaseUrl(env)|..] == ANALYZE_PATH
    ensures r.body.Keys == data.Keys && forall k :: k in data ==> r.body[k] == data[k]
  {
    HttpRequest("POST", BaseUrl(env) + ANALYZE_PATH, "application/json", data)
  }

  /**
   * The outcome of `analyzeContent` given how its `fetch` ended: a non-ok
   * response rejects with `Error("Analysis failed: " + statusText)` without
   * reading the body, an ok response resolves with the parsed body unchecked,
   * and any other rejection propagates unchanged.
   */
  function AnalyzeContent<B>(exchange: Exchange<B>): (o: Outcome<B>)
    ensures exchange.TransportFailed? ==> o == Rejected(exchange.reason)
    ensures exchange.Delivered? && exchange.response.ok && exchange.response.body.Unparsable? ==>
      o == Rejected(exchange.response.body.reason)
  {
    match exchange
    case TransportFailed(t) => Rejected(t)
    case Delivered(response) =>
      if !response.ok then Rejected(ErrorObject(FAILURE_PREFIX + response.statusText))
      else match response.body
        case Parsed(b) => Resolved(b)
        case Unparsable(t) => Rejected(t)
  }

  /** The promise resolves exactly when an ok response with a parsable body arrives, and then with that body. */
  lemma ResolvedIff<B>(exchange: Exchange<B>)
    ensures AnalyzeContent(exchange).Resolved? <==>
      exchange.Delivered? && exchange.response.ok && exchange.response.body.Parsed?
    ensures AnalyzeContent(exchange).Resolved? ==>
      AnalyzeContent(exchange).value == exchange.response.body.value
  {
  }

  /** A non-ok response's body is never read: two non-ok responses with one status text settle alike. */
  lemma NonOkIgnoresBody<B>(statusText: string, b1: Body<B>, b2: Body<B>)
    ensures AnalyzeContent(Delivered(Response(false, statusText, b1))) ==
            AnalyzeContent(Delivered(Response(false, statusText, b2)))
    ensures AnalyzeContent(Delivered(Response(false, statusText, b1))) ==
            Rejected(ErrorObject(FAILURE_PREFIX + statusText))
  {
  }

  /** The rejection message of a non-ok response gives back its status text. */
  lemma {:induction false} FailureMessageStatus<B>(response: Response<B>)
    requires !response.ok
    ensures var o := AnalyzeContent(Delivered(response));
      && o.Rejected? && o.reason.ErrorObject?
      && o.reason.message[..|FAILURE_PREFIX|] == FAILURE_PREFIX
      && o.reason.message[|FAILURE_PREFIX|..] == response.statusText
  {
    var m := FAILURE_PREFIX + response.statusText;
    assert m[..|FAILURE_PREFIX|] == FAILURE_PREFIX;
    assert m[|FAILURE_PREFIX|..] == response.statusText;
  }
}
