/**
 * Outbound HTTP as the services see it through `RestTemplate`: each exchange either throws a
 * transport error, throws a `RestClientResponseException` carrying a status and a body, or
 * returns a `ResponseEntity`. The remote side is a scripted host that logs every request it
 * receives and answers with the next reply of its script.
 */
module Upstream {
  import opened Wrappers

  type Url = string

  /** One answer of the remote side, as `RestTemplate` surfaces it. The body of a
      `RestClientResponseException` is never null (`getResponseBodyAsString` yields "" for none). */
  datatype Outcome =
    | Transport(message: string)                                 // RestClientException (I/O, timeout)
    | StatusError(code: int, responseBody: string, message: string)  // RestClientResponseException
    | Response(code: int, body: Option<string>)                  // ResponseEntity<String>

  /** A request as it leaves the service: a JSON POST of a string map, or a GET with query parameters. */
  datatype Request =
    | Post(url: Url, payload: map<string, string>)
    | Get(url: Url, query: seq<(string, string)>)

  /** `HttpStatusCode.isError()`: a 4xx or 5xx status. */
  predicate IsError(code: int) {
    400 <= code <= 599
  }

  /** `HttpStatusCode.is2xxSuccessful()`. */
  predicate Is2xx(code: int) {
    200 <= code <= 299
  }

  /** `body == null ? "" : body`. */
  function BodyOrEmpty(body: Option<string>): string {
    if body.Some? then body.value else ""
  }

  /** The reply the host gives next; a host with nothing left to say refuses the connection. */
  function NextReply(script: seq<Outcome>): Outcome {
    if script == [] then Transport("I/O error: connection refused") else script[0]
  }

  function RestOfScript(script: seq<Outcome>): seq<Outcome> {
    if script == [] then [] else script[1..]
  }

  /** The far side of every outbound call: a request log and the replies still to be given. */
  class WebhookHost {
    var sent: seq<Request>
    var script: seq<Outcome>

    constructor (replies: seq<Outcome>)
      ensures sent == [] && script == replies
    {
      sent := [];
      script := replies;
    }

    /** Sends one request and receives its outcome. */
    method Exchange(req: Request) returns (o: Outcome)
      modifies this
      ensures sent == old(sent) + [req]
      ensures o == NextReply(old(script)) && script == RestOfScript(old(script))
    {
      sent := sent + [req];
      o := NextReply(script);
      script := RestOfScript(script);
    }
  }
}
