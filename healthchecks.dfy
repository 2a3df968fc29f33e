/**
  The health-check client (app/integrations/healthchecks.py). The HTTP GET
  is an oracle from URL to response; every error the client raises is a
  `ValueError`, so an error is modelled by its message.
*/
module Healthchecks {
  import opened Common

  const RequiredPrefix: string := "http://healthchecks.home/ping"
  const TimeoutSeconds: real := 10.0

  /** What the GET produced: a response with a status code, or a transport error. */
  datatype HttpOutcome = Response(status: int) | TransportError(description: string)

  /** The GETs that were sent, in order, and the error raised, if any. */
  datatype PingOutcome = PingOutcome(requests: seq<string>, error: Option<string>)

  /** `HealthchecksClient.validate_url(url)` */
  predicate ValidateUrl(url: string) {
    StartsWith(url, RequiredPrefix)
  }

  function InvalidUrlMessage(url: string): string {
    "Invalid healthcheck URL: " + url + ". Must start with " + RequiredPrefix
  }

  function FailedMessage(detail: string): string {
    "Heartbeat check-in failed: " + detail
  }

  /** `HealthchecksClient.ping(url)` with `get` standing for the HTTP call. */
  function Ping(url: string, get: string -> HttpOutcome): (r: PingOutcome)
    ensures !ValidateUrl(url) ==> r == PingOutcome([], Some(InvalidUrlMessage(url)))
    ensures ValidateUrl(url) ==> r.requests == [url]
    ensures r.error.None? <==> ValidateUrl(url) && get(url).Response? && get(url).status < 400
    ensures ValidateUrl(url) && get(url).Response? && get(url).status >= 400
            ==> r.error == Some(FailedMessage(IntToString(get(url).status)))
    ensures ValidateUrl(url) && get(url).TransportError?
            ==> r.error == Some(FailedMessage(get(url).description))
  {
    if !ValidateUrl(url) then PingOutcome([], Some(InvalidUrlMessage(url)))
    else
      match get(url)
      case Response(status) =>
        PingOutcome([url], if status >= 400 then Some(FailedMessage(IntToString(status))) else None)
      case TransportError(d) => PingOutcome([url], Some(FailedMessage(d)))
  }

  /** A URL under the ping prefix is accepted; one elsewhere is not. */
  lemma ValidateUrlExamples()
    ensures ValidateUrl("http://healthchecks.home/ping/abc-123")
    ensures !ValidateUrl("https://healthchecks.home/ping/abc-123")
    ensures !ValidateUrl("http://example.com")
  {
    assert "http://healthchecks.home/ping/abc-123"[..|RequiredPrefix|] == RequiredPrefix;
    assert "https://healthchecks.home/ping/abc-123"[4] != RequiredPrefix[4];
  }

  /** Any status from 400 up is an error, so a 500 is reported with its code. */
  lemma ServerErrorIsReported(url: string, get: string -> HttpOutcome)
    requires ValidateUrl(url) && get(url) == Response(500)
    ensures Ping(url, get).error == Some("Heartbeat check-in failed: 500")
  {
    assert NatToString(5) == "5";
    assert NatToString(50) == "50";
    assert IntToString(500) == "500";
    assert FailedMessage("500") == "Heartbeat check-in failed: 500";
  }
}
