/**
  The upstream rates client (app/integrations/open_exchange_rates.py): how a
  request is addressed, how the response status is classified into the
  client's errors, and the shape check of the historical-rates body. The
  HTTP exchange itself is an oracle from request to response.
*/
module OpenExchangeRates {
  import opened Common
  import opened Dates
  import opened Json

  const BaseUrl: string := "https://openexchangerates.org/api"

  datatype Request = Request(url: string, params: map<string, string>)

  /** A response: status code, body text, and the body parsed as JSON when it is JSON. */
  datatype Response = Response(status: int, text: string, body: Option<Json>)

  datatype ClientError =
    | AuthenticationError(description: Json)         // 403
    | RequestError(message: Json, description: Json)  // 400, rendered "message: description"
    | NotFoundError(text: string)                     // 404 and 405
    | HttpStatusError(status: int)                    // any other status outside 2xx
    | DecodeError                                     // the body is not JSON
    | MissingKey(key: string)                         // the error body lacks a key
    | ValidationError                                 // the rates body has the wrong shape

  /** The validated body of a historical-rates call. */
  datatype HistoricalRates = HistoricalRates(
    disclaimer: string, license: string, timestamp: int, base: string,
    rates: seq<(string, real)>)

  /** The path requested for the rates of day `d`. */
  function HistoricalPath(d: Day): string {
    "historical/" + IsoDate(d) + ".json"
  }

  /** The request `get(path)` sends: the path under the base URL, the key as `app_id`. */
  function RequestFor(path: string, apiKey: string): (r: Request)
    ensures r.params == map["app_id" := apiKey]
    ensures StartsWith(r.url, BaseUrl + "/") && r.url[|BaseUrl| + 1..] == path
  {
    var url := BaseUrl + "/" + path;
    assert url[..|BaseUrl| + 1] == BaseUrl + "/";
    Request(url, map["app_id" := apiKey])
  }

  /** The member `key` of a JSON object body, or why it cannot be read. */
  function Member(body: Option<Json>, key: string): Result<Json, ClientError> {
    match body
    case None => Err(DecodeError)
    case Some(JObj(ms)) =>
      (match Get(ms, key)
       case Some(v) => Ok(v)
       case None => Err(MissingKey(key)))
    case Some(_) => Err(MissingKey(key))
  }

  function NotFoundText(path: string, text: string): string {
    "/api/" + path + " not found: " + text
  }

  predicate IsSuccess(status: int) {
    200 <= status < 300
  }

  /** `OpenExchangeRatesClient.get(path)`: the classification of the response. */
  function Classify(path: string, resp: Response): (r: Result<Json, ClientError>)
    ensures r.Ok? <==> IsSuccess(resp.status) && resp.body.Some?
    ensures r.Ok? ==> r.value == resp.body.value
    ensures resp.status in {404, 405} ==> r == Err(NotFoundError(NotFoundText(path, resp.text)))
    ensures !IsSuccess(resp.status) && resp.status !in {400, 403, 404, 405} ==> r == Err(HttpStatusError(resp.status))
    ensures resp.status == 403 ==> r.Err? && (r.error.AuthenticationError? ==> Member(resp.body, "description") == Ok(r.error.description))
  {
    if resp.status == 403 then
      match Member(resp.body, "description")
      case Ok(d) => Err(AuthenticationError(d))
      case Err(e) => Err(e)
    else if resp.status == 400 then
      match (Member(resp.body, "message"), Member(resp.body, "description"))
      case (Ok(m), Ok(d)) => Err(RequestError(m, d))
      case (Err(e), _) => Err(e)
      case (_, Err(e)) => Err(e)
    else if resp.status == 404 || resp.status == 405 then
      Err(NotFoundError(NotFoundText(path, resp.text)))
    else if !IsSuccess(resp.status) then
      Err(HttpStatusError(resp.status))
    else if resp.body.None? then
      Err(DecodeError)
    else
      Ok(resp.body.value)
  }

  datatype Call<T> = Call(request: Request, result: Result<T, ClientError>)

  /** `get(path)` against the HTTP oracle `send`. */
  function GetPath(path: string, apiKey: string, send: Request -> Response): (r: Call<Json>)
    ensures r.request == RequestFor(path, apiKey)
    ensures r.result == Classify(path, send(r.request))
  {
    var req := RequestFor(path, apiKey);
    Call(req, Classify(path, send(req)))
  }

  function StrMember(ms: Members, key: string): Option<string> {
    match Get(ms, key)
    case Some(JStr(s)) => Some(s)
    case _ => None
  }

  /** A JSON number with no fractional part, as an integer. */
  function IntMember(ms: Members, key: string): Option<int> {
    match Get(ms, key)
    case Some(JNum(n)) => if n == n.Floor as real then Some(n.Floor) else None
    case _ => None
  }

  /** A rates object: every member a number; as a dict, a repeated key keeps its first position. */
  function RatesMember(ms: Members): (r: Option<seq<(string, real)>>)
    ensures r.Some? ==> Get(ms, "rates").Some? && Get(ms, "rates").value.JObj?
    ensures r.Some? ==>
              var d := ToDict(Get(ms, "rates").value.members);
              |r.value| == |d| && forall i :: 0 <= i < |d| ==> d[i] == (r.value[i].0, JNum(r.value[i].1))
    ensures (Get(ms, "rates").Some? && Get(ms, "rates").value.JObj? &&
             var rates := Get(ms, "rates").value.members;
             forall j :: 0 <= j < |rates| ==> rates[j].1.JNum?)
            ==> r.Some?
  {
    match Get(ms, "rates")
    case Some(JObj(rates)) =>
      var d := ToDict(rates);
      ToDictEntriesAreMembers(rates);
      if forall i :: 0 <= i < |d| ==> d[i].1.JNum? then
        Some(seq(|d|, i requires 0 <= i < |d| && d[i].1.JNum? => (d[i].0, d[i].1.n)))
      else None
    case _ => None
  }

  /** `HistoricalRatesResponse.model_validate(body)` */
  function ValidateHistorical(body: Json): (r: Result<HistoricalRates, ClientError>)
    ensures r.Ok? ==> body.JObj? && Get(body.members, "base") == Some(JStr(r.value.base))
    ensures r.Ok? ==> forall i, j :: 0 <= i < j < |r.value.rates| ==> r.value.rates[i].0 != r.value.rates[j].0
    ensures !body.JObj? ==> r == Err(ValidationError)
    ensures body.JObj? ==>
              (r.Ok? <==> StrMember(body.members, "disclaimer").Some? && StrMember(body.members, "license").Some? &&
                          IntMember(body.members, "timestamp").Some? && StrMember(body.members, "base").Some? &&
                          RatesMember(body.members).Some?)
    ensures r.Ok? ==>
              StrMember(body.members, "disclaimer") == Some(r.value.disclaimer) &&
              StrMember(body.members, "license") == Some(r.value.license) &&
              IntMember(body.members, "timestamp") == Some(r.value.timestamp) &&
              StrMember(body.members, "base") == Some(r.value.base) &&
              RatesMember(body.members) == Some(r.value.rates)
  {
    match body
    case JObj(ms) =>
      (match (StrMember(ms, "disclaimer"), StrMember(ms, "license"), IntMember(ms, "timestamp"),
              StrMember(ms, "base"), RatesMember(ms))
       case (Some(dis), Some(lic), Some(ts), Some(b), Some(rs)) =>
         Ok(HistoricalRates(dis, lic, ts, b, rs))
       case _ => Err(ValidationError))
    case _ => Err(ValidationError)
  }

  /** `historical_rates_for(d)`: the GET of the day's path, then the shape check. */
  function HistoricalRatesFor(d: Day, apiKey: string, send: Request -> Response): (r: Call<HistoricalRates>)
    ensures r.request.url == BaseUrl + "/" + HistoricalPath(d)
    ensures "app_id" in r.request.params && r.request.params["app_id"] == apiKey
    ensures IsSuccess(send(r.request).status) && send(r.request).body.Some?
            ==> r.result == ValidateHistorical(send(r.request).body.value)
    ensures !IsSuccess(send(r.request).status)
            ==> r.result.Err? && Classify(HistoricalPath(d), send(r.request)) == Err(r.result.error)
  {
    var c := GetPath(HistoricalPath(d), apiKey, send);
    match c.result
    case Ok(j) => Call(c.request, ValidateHistorical(j))
    case Err(e) => Call(c.request, Err(e))
  }

  /** The day rendered in the path is the ISO calendar date: 1970-01-01 for day 0. */
  lemma HistoricalPathOfEpoch(d: Day)
    requires d == 0
    ensures HistoricalPath(d) == "historical/1970-01-01.json"
  {
    EpochIsDayZero(d);
    HistoricalPathOf(d, "1970-01-01");
    EpochPath();
  }

  lemma EpochPath()
    ensures "historical/" + "1970-01-01" + ".json" == "historical/1970-01-01.json"
  {
  }

  lemma HistoricalPathOf(d: Day, iso: string)
    requires IsoDate(d) == iso
    ensures HistoricalPath(d) == "historical/" + iso + ".json"
  {
  }

  /** 401 and 429 have no class of their own here: they are plain status errors. */
  lemma UnauthorizedAndRateLimitedAreStatusErrors(path: string, text: string, body: Option<Json>)
    ensures Classify(path, Response(401, text, body)) == Err(HttpStatusError(401))
    ensures Classify(path, Response(429, text, body)) == Err(HttpStatusError(429))
  {
  }

  /** A 403 whose body carries a description raises the authentication error with it. */
  lemma ForbiddenCarriesDescription(path: string, text: string, description: string)
    ensures Classify(path, Response(403, text, Some(JObj([("description", JStr(description))]))))
            == Err(AuthenticationError(JStr(description)))
  {
  }
}
