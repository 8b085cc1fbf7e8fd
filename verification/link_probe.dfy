/**
 * Probing one URL: a HEAD request, retried once as GET when the server
 * rejects HEAD with 405 or 501, and the classification of what came back.
 *
 * The network is an input: an `Endpoint` says how the server at one URL
 * answers each request method. `urlopen` either returns a response, or
 * raises `HTTPError` (a status the opener does not accept), `URLError`
 * (no usable connection), or some other exception, which `probe_url`
 * does not catch.
 */
module LinkProbe {
  import opened Wrappers
  import opened Text

  datatype Verb = Head | Get

  datatype HttpOutcome =
    | Response(status: int, reason: string)
    | HttpError(code: int, reason: string)
    | UrlError(reason: string)
    /** Any other exception, described by its message; it escapes the probe. */
    | Crash(message: string)

  /** How the server behind one URL answers a request with the given method. */
  type Endpoint = Verb -> HttpOutcome

  /** `LinkResult`; `sourceFiles` is the tuple of referencing files, empty until the report fills it in. */
  datatype LinkResult = LinkResult(url: string, status: string, ok: bool, sourceFiles: seq<string>)

  /** What probing did: the result, or the exception that escaped, and the requests sent, in order. */
  datatype Probe = Probe(result: Result<LinkResult, string>, requests: seq<Verb>)

  /** HEAD rejections after which the probe retries with GET. */
  const RetryCodes: set<int> := {405, 501}

  const ConnectionErrorPrefix: string := "Connection error: "

  /** `f"{code} {reason}"`. */
  function StatusLine(code: int, reason: string): string {
    IntToString(code) + " " + reason
  }

  /** A 2xx or 3xx status counts as reachable. */
  predicate Reachable(status: int) {
    200 <= status < 400
  }

  /** The `LinkResult` for one outcome, as both `probe_url` and `probe_get` build it. */
  function Classify(url: string, o: HttpOutcome): (r: Result<LinkResult, string>)
    ensures r.Failure? <==> o.Crash?
    ensures r.Success? ==> r.value.url == url && r.value.sourceFiles == []
    ensures r.Success? ==> (r.value.ok <==> o.Response? && Reachable(o.status))
    ensures o.Response? ==> r.value.status == StatusLine(o.status, o.reason)
    ensures o.HttpError? ==> r.value.status == StatusLine(o.code, o.reason)
    ensures o.UrlError? ==> r.value.status == ConnectionErrorPrefix + o.reason
  {
    match o
    case Response(status, reason) => Success(LinkResult(url, StatusLine(status, reason), Reachable(status), []))
    case HttpError(code, reason) => Success(LinkResult(url, StatusLine(code, reason), false, []))
    case UrlError(reason) => Success(LinkResult(url, ConnectionErrorPrefix + reason, false, []))
    case Crash(message) => Failure(message)
  }

  predicate RejectsHead(o: HttpOutcome) {
    o.HttpError? && o.code in RetryCodes
  }

  /** The outcome the result reports: GET's when HEAD was rejected, HEAD's otherwise. */
  function DecisiveOutcome(endpoint: Endpoint): HttpOutcome {
    if RejectsHead(endpoint(Head)) then endpoint(Get) else endpoint(Head)
  }

  /** `probe_get`: one GET request. */
  function ProbeGet(url: string, endpoint: Endpoint): (r: Probe)
    ensures r.requests == [Get]
    ensures r.result == Classify(url, endpoint(Get))
  {
    Probe(Classify(url, endpoint(Get)), [Get])
  }

  /** `probe_url`: HEAD first, GET only when HEAD is rejected with 405 or 501. */
  function ProbeUrl(url: string, endpoint: Endpoint): (r: Probe)
    ensures r.requests == (if RejectsHead(endpoint(Head)) then [Head, Get] else [Head])
    ensures r.result == Classify(url, DecisiveOutcome(endpoint))
    ensures r.result.Failure? <==> DecisiveOutcome(endpoint).Crash?
    ensures r.result.Success? ==> r.result.value.url == url && r.result.value.sourceFiles == []
    ensures r.result.Success? ==>
              (r.result.value.ok <==> DecisiveOutcome(endpoint).Response? && Reachable(DecisiveOutcome(endpoint).status))
  {
    match endpoint(Head)
    case HttpError(code, _) =>
      if code in RetryCodes then
        var retry := ProbeGet(url, endpoint);
        Probe(retry.result, [Head] + retry.requests)
      else Probe(Classify(url, endpoint(Head)), [Head])
    case _ => Probe(Classify(url, endpoint(Head)), [Head])
  }

  /** A link is reported healthy only on a 2xx or 3xx answer; errors and failed connections never are. */
  lemma OkMeansReachableAnswer(url: string, endpoint: Endpoint)
    requires ProbeUrl(url, endpoint).result.Success? && ProbeUrl(url, endpoint).result.value.ok
    ensures exists v :: v in ProbeUrl(url, endpoint).requests && endpoint(v).Response? && Reachable(endpoint(v).status)
  {
    if RejectsHead(endpoint(Head)) {
      assert Get in ProbeUrl(url, endpoint).requests;
    } else {
      assert Head in ProbeUrl(url, endpoint).requests;
    }
  }

  /** Unless HEAD is rejected, the GET answer is never consulted. */
  lemma HeadDecidesUnlessRejected(url: string, e1: Endpoint, e2: Endpoint)
    requires e1(Head) == e2(Head) && !RejectsHead(e1(Head))
    ensures ProbeUrl(url, e1) == ProbeUrl(url, e2)
  {
  }

  /** After a rejected HEAD the probe reports exactly what a lone GET would. */
  lemma RejectedHeadFallsBackToGet(url: string, endpoint: Endpoint)
    requires RejectsHead(endpoint(Head))
    ensures ProbeUrl(url, endpoint).result == ProbeGet(url, endpoint).result
    ensures ProbeUrl(url, endpoint).requests == [Head] + ProbeGet(url, endpoint).requests
  {
  }

  /** The status text of an HTTP answer starts with its numeric code, so the code can be read back. */
  lemma StatusLineStartsWithCode(code: nat, reason: string)
    ensures StatusLine(code, reason)[..|NatToString(code)|] == NatToString(code)
    ensures DigitsValue(StatusLine(code, reason)[..|NatToString(code)|]) == code
  {
    var digits := NatToString(code);
    assert StatusLine(code, reason) == digits + (" " + reason);
    NatToStringRoundTrip(code);
  }
}
