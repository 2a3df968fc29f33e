/**
  The paginated historical-rates endpoint
  (app/api/exchange_rates/historical_exchange_rates.py). Two layers:

  - the request parsing FastAPI performs before the handler runs: the path
    codes, the `AvailableDate` query dates with their defaults, the page
    and size bounds, and the order literal; every failing field is listed;
  - the handler body: its own rules, collected in a fixed order and joined
    into one 422 detail, then the service call with limit and offset
    derived from page and size, and the page arithmetic of the response.

  The two layers read `date.today()` from different modules, so each takes
  its own `today`; in one request at one moment they agree.
*/
module HistoricalHandler {
  import opened Common
  import opened Dates
  import opened CurrencyCode
  import RS = RateStore
  import AD = AvailableDate
  import RSchema = ResponseSchema

  const DefaultPage: int := 1
  const DefaultSize: int := 1000
  const MaxSize: int := 1000

  const UsdRequired: string := "At least one currency must be USD"
  const StartAfterToday: string := "start_date must be before or equal to today"
  const EndAfterToday: string := "end_date must be before or equal to today"
  const StartAfterEnd: string := "start_date must be before or equal to end_date"

  const InvalidCurrency: string :=
    "Invalid currency code. See https://en.wikipedia.org/wiki/ISO_4217 . Bonds, testing and precious metals codes are not allowed."
  const AtLeastOne: string := "Input should be greater than or equal to 1"
  const AtMostMax: string := "Input should be less than or equal to 1000"
  const NotAnIntegerMessage: string := "Input should be a valid integer, unable to parse string as an integer"
  const OrderLiteral: string := "Input should be 'asc' or 'desc'"

  // ---------------------------------------------------------------------
  // Request parsing

  /** A query integer as received: a whole number, or text that is not one. */
  datatype IntInput = IntValue(i: int) | NotAnInteger

  /** The query string; a missing parameter is None. */
  datatype RawQuery = RawQuery(start: Option<AD.Input>, end: Option<AD.Input>, page: Option<IntInput>,
                               size: Option<IntInput>, order: Option<string>)

  /** `HistoricalExchangeRatesQueryParams` once parsed. */
  datatype Params = Params(start: Day, end: Day, page: int, size: int, order: RS.SortOrder)

  /** One entry of FastAPI's 422 list: the field and its message. */
  datatype FieldError = FieldError(field: string, msg: string)

  predicate ValidParams(p: Params) {
    p.page >= 1 && 1 <= p.size <= MaxSize
  }

  /**
    The opening words of pydantic's own error for a value its date parser
    rejects; the reason it appends depends on the input.
  */
  const InvalidDate: string := "Input should be a valid date"

  /**
    A date field: the default when absent (not validated), else pydantic's
    date parsing and then `AvailableDate`. A value that does not parse as a
    date stops at the parser, so the validator only ever sees dates.
  */
  function DateField(field: string, v: Option<AD.Input>, default: Day, today: Day): (r: Result<Day, FieldError>)
    ensures v.None? ==> r == Ok(default)
    ensures v.Some? && r.Ok? ==> r.value <= today && v.value == AD.ADate(r.value)
    ensures v.Some? && v.value.ADate? && v.value.day <= today ==> r == Ok(v.value.day)
    ensures v.Some? && v.value.ADate? && v.value.day > today ==> r == Err(FieldError(field, AD.MustBePastOrToday))
    ensures v.Some? && v.value.NotADate? ==> r == Err(FieldError(field, InvalidDate))
  {
    match v
    case None => Ok(default)
    case Some(x) =>
      if x.NotADate? then Err(FieldError(field, InvalidDate))
      else
        var checked := AD.Validate(x, today);
        if checked.Ok? then Ok(checked.value) else Err(FieldError(field, checked.error.message))
  }

  /** `page: int = Field(default=1, ge=1)` */
  function PageField(v: Option<IntInput>): (r: Result<int, FieldError>)
    ensures r.Ok? <==> v.None? || (v.value.IntValue? && v.value.i >= 1)
    ensures r.Ok? ==> r.value >= 1 && (v.None? ==> r.value == DefaultPage) && (v.Some? ==> r.value == v.value.i)
  {
    match v
    case None => Ok(DefaultPage)
    case Some(NotAnInteger) => Err(FieldError("page", NotAnIntegerMessage))
    case Some(IntValue(i)) => if i >= 1 then Ok(i) else Err(FieldError("page", AtLeastOne))
  }

  /** `size: int = Field(default=1000, ge=1, le=1000)` */
  function SizeField(v: Option<IntInput>): (r: Result<int, FieldError>)
    ensures r.Ok? <==> v.None? || (v.value.IntValue? && 1 <= v.value.i <= MaxSize)
    ensures r.Ok? ==> 1 <= r.value <= MaxSize && (v.None? ==> r.value == DefaultSize) && (v.Some? ==> r.value == v.value.i)
    ensures v.Some? && v.value.IntValue? && v.value.i < 1 ==> r == Err(FieldError("size", AtLeastOne))
    ensures v.Some? && v.value.IntValue? && v.value.i > MaxSize ==> r == Err(FieldError("size", AtMostMax))
  {
    match v
    case None => Ok(DefaultSize)
    case Some(NotAnInteger) => Err(FieldError("size", NotAnIntegerMessage))
    case Some(IntValue(i)) =>
      if i < 1 then Err(FieldError("size", AtLeastOne))
      else if i > MaxSize then Err(FieldError("size", AtMostMax))
      else Ok(i)
  }

  /** `order: Literal["asc", "desc"] = Field(default="desc")` */
  function OrderField(v: Option<string>): (r: Result<RS.SortOrder, FieldError>)
    ensures r.Ok? <==> v.None? || v.value in {"asc", "desc"}
    ensures r.Ok? ==> (r.value == RS.Asc <==> v == Some("asc"))
  {
    match v
    case None => Ok(RS.Desc)
    case Some(s) =>
      if s == "asc" then Ok(RS.Asc)
      else if s == "desc" then Ok(RS.Desc)
      else Err(FieldError("order", OrderLiteral))
  }

  function ErrorsOf<T>(r: Result<T, FieldError>): seq<FieldError> {
    if r.Err? then [r.error] else []
  }

  /**
    Parsing the query. `validatorToday` is what `AvailableDate` compares
    with; `handlerToday` is what the default factories use.
  */
  function ParseQuery(raw: RawQuery, validatorToday: Day, handlerToday: Day): (r: Result<Params, seq<FieldError>>)
    ensures r.Ok? ==> ValidParams(r.value)
    ensures r.Ok? ==> (raw.start.None? ==> r.value.start == handlerToday - RS.TenYears)
                      && (raw.end.None? ==> r.value.end == handlerToday)
                      && (raw.start.Some? ==> r.value.start <= validatorToday)
                      && (raw.end.Some? ==> r.value.end <= validatorToday)
    ensures r.Err? ==> r.error != [] && |r.error| <= 5
    ensures r.Err? <==> DateField("start_date", raw.start, handlerToday - RS.TenYears, validatorToday).Err?
                        || DateField("end_date", raw.end, handlerToday, validatorToday).Err?
                        || PageField(raw.page).Err? || SizeField(raw.size).Err? || OrderField(raw.order).Err?
  {
    var s := DateField("start_date", raw.start, handlerToday - RS.TenYears, validatorToday);
    var e := DateField("end_date", raw.end, handlerToday, validatorToday);
    var p := PageField(raw.page);
    var z := SizeField(raw.size);
    var o := OrderField(raw.order);
    var errors := ErrorsOf(s) + ErrorsOf(e) + ErrorsOf(p) + ErrorsOf(z) + ErrorsOf(o);
    if errors != [] then Err(errors)
    else Ok(Params(s.value, e.value, p.value, z.value, o.value))
  }

  /** The path codes, checked against the ISO 4217 list `allowed`. */
  function PathErrors(base: string, quote: string, allowed: set<string>): (r: seq<FieldError>)
    ensures r == [] <==> IsValid(base, allowed) && IsValid(quote, allowed)
    ensures forall i :: 0 <= i < |r| ==> r[i].msg == InvalidCurrency
  {
    (if IsValid(base, allowed) then [] else [FieldError("base_currency_code", InvalidCurrency)])
    + (if IsValid(quote, allowed) then [] else [FieldError("quote_currency_code", InvalidCurrency)])
  }

  // ---------------------------------------------------------------------
  // The handler body

  /** `offset = (page - 1) * size` */
  function Offset(page: int, size: int): (r: int)
    ensures page >= 1 && size >= 0 ==> r >= 0
    ensures page == 1 ==> r == 0
  {
    (page - 1) * size
  }

  /** `pages = (total + size - 1) // size`; for a positive size Python's floor division is Dafny's. */
  function Pages(total: int, size: int): (r: int)
    requires size >= 1
    ensures total >= 0 ==> 0 <= r <= total
  {
    CeilingBounds(total, size);
    (total + size - 1) / size
  }

  lemma CeilingBounds(total: int, size: int)
    requires size >= 1
    ensures total >= 0 ==> 0 <= (total + size - 1) / size <= total
  {
    var q := (total + size - 1) / size;
    assert q * size <= total + size - 1;
    if total >= 0 {
      assert q >= 0;
      assert total * size >= total;
      assert q * size < (total + 1) * size;
    }
  }

  /** The handler's four rules, in the order it checks them. */
  datatype Rule = NoUsd | StartLate | EndLate | Inverted {
    function Message(): string {
      match this
      case NoUsd => UsdRequired
      case StartLate => StartAfterToday
      case EndLate => EndAfterToday
      case Inverted => StartAfterEnd
    }
    function Place(): int {
      match this
      case NoUsd => 0
      case StartLate => 1
      case EndLate => 2
      case Inverted => 3
    }
  }

  predicate InvolvesUsd(base: string, quote: string) {
    Same(base, "USD") || Same(quote, "USD")
  }

  /** The rules whose flags are set, in check order. */
  function Selected(noUsd: bool, startLate: bool, endLate: bool, inverted: bool): (r: seq<Rule>)
    ensures NoUsd in r <==> noUsd
    ensures StartLate in r <==> startLate
    ensures EndLate in r <==> endLate
    ensures Inverted in r <==> inverted
    ensures forall i, j :: 0 <= i < j < |r| ==> r[i].Place() < r[j].Place()
  {
    (if noUsd then [NoUsd] else [])
    + (if startLate then [StartLate] else [])
    + (if endLate then [EndLate] else [])
    + (if inverted then [Inverted] else [])
  }

  /** The rules that fail, each once, in the order the handler checks them. */
  function FailingRules(base: string, quote: string, p: Params, today: Day): (r: seq<Rule>)
    ensures NoUsd in r <==> !InvolvesUsd(base, quote)
    ensures StartLate in r <==> p.start > today
    ensures EndLate in r <==> p.end > today
    ensures Inverted in r <==> p.start > p.end
    ensures forall i, j :: 0 <= i < j < |r| ==> r[i].Place() < r[j].Place()
  {
    Selected(!InvolvesUsd(base, quote), p.start > today, p.end > today, p.start > p.end)
  }

  /** No two rules share a message, so the messages name the rules that failed. */
  lemma MessagesDistinct(a: Rule, b: Rule)
    ensures a.Message() == b.Message() <==> a == b
  {
    assert UsdRequired[0] != StartAfterToday[0] && UsdRequired[0] != EndAfterToday[0];
    assert UsdRequired[0] != StartAfterEnd[0] && StartAfterToday[0] != EndAfterToday[0];
    assert |StartAfterToday| != |StartAfterEnd| && EndAfterToday[0] != StartAfterEnd[0];
  }

  /** `validation_errors`: the messages of the failing rules, in rule order. */
  function ValidationErrors(base: string, quote: string, p: Params, today: Day): (r: seq<string>)
    ensures var rules := FailingRules(base, quote, p, today);
            |r| == |rules| && forall i :: 0 <= i < |r| ==> r[i] == rules[i].Message()
    ensures forall c: Rule :: c.Message() in r <==> c in FailingRules(base, quote, p, today)
  {
    var rules := FailingRules(base, quote, p, today);
    var r := Map(rules, (c: Rule) => c.Message());
    MessagesName(rules, r);
    r
  }

  lemma MessagesName(rules: seq<Rule>, r: seq<string>)
    requires |r| == |rules| && forall i :: 0 <= i < |r| ==> r[i] == rules[i].Message()
    ensures forall c: Rule :: c.Message() in r <==> c in rules
  {
    forall c: Rule ensures c.Message() in r <==> c in rules {
      if c.Message() in r {
        var i :| 0 <= i < |r| && r[i] == c.Message();
        MessagesDistinct(c, rules[i]);
      }
      if c in rules {
        var i :| 0 <= i < |rules| && rules[i] == c;
        assert r[i] == c.Message();
      }
    }
  }

  /** The call the handler makes; `limit` is the page size. */
  datatype ServiceRequest = ServiceRequest(base: string, quote: string, start: Day, end: Day,
                                           limit: int, offset: int, order: RS.SortOrder)

  /** `HistoricalExchangeRateResponse` */
  datatype HistoricalPage = HistoricalPage(base: string, quote: string, data: seq<RSchema.RateData>,
                                           total: int, page: int, size: int, pages: int)

  /**
    A 422 with its detail; a server error after the service request, when a
    returned row fails the response schema; or the request made and the
    response built.
  */
  datatype Outcome =
    | Unprocessable(detail: string)
    | InvalidResponse(request: ServiceRequest)
    | Success(request: ServiceRequest, body: HistoricalPage)

  /**
    `historical_exchange_rates(base, quote, params)` with `date.today()`
    passed in and `service` standing for `get_historical_rates`, which
    returns the rows of the page and the total.
  */
  function Handle(base: string, quote: string, p: Params, today: Day,
                  service: ServiceRequest -> (seq<RS.Row>, int)): (r: Outcome)
    requires ValidParams(p)
    ensures r.Unprocessable? <==> ValidationErrors(base, quote, p, today) != []
    ensures r.Unprocessable? ==> r.detail == Join(ValidationErrors(base, quote, p, today), "; ")
    ensures !r.Unprocessable? ==>
              r.request == ServiceRequest(base, quote, p.start, p.end, p.size, Offset(p.page, p.size), p.order)
    ensures r.InvalidResponse? <==>
              && ValidationErrors(base, quote, p, today) == []
              && exists i :: 0 <= i < |service(r.request).0| && service(r.request).0[i].rate <= 0.0
    ensures r.Success? ==>
              var (rows, total) := service(r.request);
              && r.body.base == base && r.body.quote == quote
              && r.body.total == total && r.body.page == p.page && r.body.size == p.size
              && r.body.pages == Pages(total, p.size)
              && |r.body.data| == |rows|
              && (forall i :: 0 <= i < |rows| ==> rows[i].rate > 0.0)
              && forall i :: 0 <= i < |rows| ==> r.body.data[i] == RSchema.RateData(rows[i].rate, rows[i].asOf)
  {
    var errors := ValidationErrors(base, quote, p, today);
    if errors != [] then Unprocessable(Join(errors, "; "))
    else
      var request := ServiceRequest(base, quote, p.start, p.end, p.size, Offset(p.page, p.size), p.order);
      var (rows, total) := service(request);
      match RSchema.DataFromRows(rows)
      case None => InvalidResponse(request)
      case Some(data) => Success(request, HistoricalPage(base, quote, data, total, p.page, p.size, Pages(total, p.size)))
  }

  // ---------------------------------------------------------------------
  // The call as written against the service interface

  /** The keywords the handler passes to `get_historical_rates`, in order. */
  const CallKeywords: seq<string> :=
    ["base_currency_code", "quote_currency_code", "start_date", "end_date", "limit", "offset", "sort_order"]

  /** The parameters `ExchangeRateService.get_historical_rates` declares. */
  const ServiceParameters: seq<string> :=
    ["base_currency_code", "quote_currency_code", "start_date", "end_date", "limit", "sort_order"]

  /** The parameters the test double's `get_historical_rates` declares. */
  const MockParameters: seq<string> :=
    ["base_currency_code", "quote_currency_code", "start_date", "end_date", "limit", "offset", "sort_order"]

  /**
    Python's keyword binding: the first keyword the callee does not
    declare, for which the call raises `TypeError` before the body runs.
  */
  function UnexpectedKeyword(keywords: seq<string>, parameters: seq<string>): (r: Option<string>)
    ensures r.None? <==> forall i :: 0 <= i < |keywords| ==> keywords[i] in parameters
    ensures r.Some? ==> r.value in keywords && r.value !in parameters
  {
    if keywords == [] then None
    else if keywords[0] !in parameters then Some(keywords[0])
    else UnexpectedKeyword(keywords[1..], parameters)
  }

  /** The service the handler is wired to cannot bind `offset`: every request that passes the rules fails. */
  lemma RealServiceRejectsOffset()
    ensures UnexpectedKeyword(CallKeywords, ServiceParameters) == Some("offset")
    ensures UnexpectedKeyword(CallKeywords, MockParameters).None?
  {
    assert CallKeywords[..5] == ServiceParameters[..5];
    assert CallKeywords[5] == "offset" && "offset" !in ServiceParameters by {
      forall i | 0 <= i < |ServiceParameters| ensures ServiceParameters[i] != "offset" {
        assert |ServiceParameters[i]| != 6;
      }
    }
    assert UnexpectedKeyword(CallKeywords, ServiceParameters) == UnexpectedKeyword(CallKeywords[5..], ServiceParameters) by {
      KnownPrefixSkipped(CallKeywords, ServiceParameters, 5);
    }
    assert forall i :: 0 <= i < |CallKeywords| ==> CallKeywords[i] == MockParameters[i];
  }

  /** Keywords the callee declares are passed over. */
  lemma {:induction false} KnownPrefixSkipped(keywords: seq<string>, parameters: seq<string>, n: nat)
    requires n <= |keywords| && forall i :: 0 <= i < n ==> keywords[i] in parameters
    ensures UnexpectedKeyword(keywords, parameters) == UnexpectedKeyword(keywords[n..], parameters)
  {
    if n > 0 {
      KnownPrefixSkipped(keywords[1..], parameters, n - 1);
      assert keywords[1..][n - 1..] == keywords[n..];
    }
  }

  // ---------------------------------------------------------------------
  // Properties

  /**
    `pages` is the ceiling of total / size: the pages reported hold every
    row and the last of them is not empty.
  */
  lemma PagesIsCeiling(total: int, size: int)
    requires total >= 0 && size >= 1
    ensures Pages(total, size) * size >= total
    ensures total > 0 ==> (Pages(total, size) - 1) * size < total
    ensures total == 0 ==> Pages(total, size) == 0
  {
    var q := Pages(total, size);
    assert q * size <= total + size - 1 < (q + 1) * size;
  }

  /** Exactly the pages 1..pages start inside the total. */
  lemma OffsetsWithinTotal(total: int, size: int, page: int)
    requires total >= 0 && size >= 1 && page >= 1
    ensures Offset(page, size) >= 0
    ensures Offset(page, size) < total <==> page <= Pages(total, size)
  {
    PagesIsCeiling(total, size);
    var n := Pages(total, size);
    assert Offset(page, size) == (page - 1) * size;
    if page <= n {
      ScaleMonotone(page - 1, n - 1, size);
    } else {
      ScaleMonotone(n, page - 1, size);
    }
  }

  lemma ScaleMonotone(a: int, b: int, size: int)
    requires a <= b && size >= 1
    ensures a * size <= b * size
  {
    assert b * size - a * size == (b - a) * size;
  }

  /** Eight rows in pages of two make four pages; with the default size, one. */
  lemma PagesExamples()
    ensures Pages(8, 2) == 4 && Pages(8, DefaultSize) == 1 && Pages(0, 2) == 0 && Pages(9, 2) == 5
  {
  }

  /** When neither code is USD, the detail leads with the USD rule. */
  lemma NoUsdIsReportedFirst(base: string, quote: string, p: Params, today: Day,
                             service: ServiceRequest -> (seq<RS.Row>, int))
    requires ValidParams(p) && !InvolvesUsd(base, quote)
    ensures Handle(base, quote, p, today, service).Unprocessable?
    ensures StartsWith(Handle(base, quote, p, today, service).detail, UsdRequired)
  {
    var rules := FailingRules(base, quote, p, today);
    var errors := ValidationErrors(base, quote, p, today);
    assert rules[0] == NoUsd by {
      var k :| 0 <= k < |rules| && rules[k] == NoUsd;
      if k > 0 { assert rules[0].Place() < rules[k].Place(); }
    }
    assert errors[0] == UsdRequired;
    if |errors| > 1 {
      assert Join(errors, "; ") == UsdRequired + "; " + Join(errors[1..], "; ");
    }
  }

  /**
    Parsed with the same `today` as the handler's, the two "after today"
    rules can never fire, so only the USD rule and the ordering of the
    dates remain.
  */
  lemma SameTodayLeavesTwoRules(base: string, quote: string, raw: RawQuery, today: Day)
    requires ParseQuery(raw, today, today).Ok?
    ensures var p := ParseQuery(raw, today, today).value;
            FailingRules(base, quote, p, today)
            == (if InvolvesUsd(base, quote) then [] else [NoUsd]) + (if p.start > p.end then [Inverted] else [])
  {
  }

  /**
    With the handler's clock at 2024-04-01, a start of 2024-04-02 that the
    parser accepted and the default end give two messages, in rule order.
  */
  lemma StartAfterMockedToday(validatorToday: Day, handlerToday: Day, start: Day,
                              service: ServiceRequest -> (seq<RS.Row>, int))
    requires handlerToday == DaysFromCivil(2024, 4, 1) && start == DaysFromCivil(2024, 4, 2)
    requires validatorToday >= start
    ensures var raw := RawQuery(Some(AD.ADate(start)), None, None, None, None);
            var p := ParseQuery(raw, validatorToday, handlerToday);
            && p.Ok?
            && Handle("USD", "EUR", p.value, handlerToday, service)
               == Unprocessable(StartAfterToday + "; " + StartAfterEnd)
  {
    NextDay(handlerToday, start);
    ParsesStartOnly(validatorToday, handlerToday, start);
    var p := ParseQuery(RawQuery(Some(AD.ADate(start)), None, None, None, None), validatorToday, handlerToday);
    OneDayAheadRejected(p.value, handlerToday, service);
  }

  /** A start the validator accepted and nothing else: every other field takes its default. */
  lemma ParsesStartOnly(validatorToday: Day, handlerToday: Day, start: Day)
    requires start <= validatorToday
    ensures var p := ParseQuery(RawQuery(Some(AD.ADate(start)), None, None, None, None), validatorToday, handlerToday);
            p == Ok(Params(start, handlerToday, DefaultPage, DefaultSize, RS.Desc))
  {
  }

  lemma OneDayAheadRejected(p: Params, today: Day, service: ServiceRequest -> (seq<RS.Row>, int))
    requires p.start == today + 1 && p.end == today && ValidParams(p)
    ensures Handle("USD", "EUR", p, today, service) == Unprocessable(StartAfterToday + "; " + StartAfterEnd)
  {
    UsdIsUsd();
    assert FailingRules("USD", "EUR", p, today) == [StartLate, Inverted];
    assert ValidationErrors("USD", "EUR", p, today) == [StartAfterToday, StartAfterEnd];
    JoinTwo(StartAfterToday, StartAfterEnd);
  }

  lemma NextDay(handlerToday: Day, start: Day)
    requires handlerToday == DaysFromCivil(2024, 4, 1) && start == DaysFromCivil(2024, 4, 2)
    ensures start == handlerToday + 1
  {
  }

  lemma UsdIsUsd()
    ensures InvolvesUsd("USD", "EUR")
  {
    assert Upper("USD") == "USD";
  }

  lemma JoinTwo(a: string, b: string)
    ensures Join([a, b], "; ") == a + "; " + b
  {
    assert [a, b][1..] == [b];
  }
}
