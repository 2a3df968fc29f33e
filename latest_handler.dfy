/**
  The latest-rate endpoint (backend/app/api/exchange_rates/latest_exchange_rate.py):
  the `desired_date` query date defaults to today, one rule of its own (a
  USD side), then the service lookup, whose absence is a 404.
*/
module LatestHandler {
  import opened Common
  import opened Dates
  import opened CurrencyCode
  import RS = RateStore
  import AD = AvailableDate
  import HH = HistoricalHandler
  import RSchema = ResponseSchema

  /** Parsing `desired_date`: today's date when absent, else `AvailableDate`. */
  function ParseDesiredDate(v: Option<AD.Input>, validatorToday: Day, handlerToday: Day): (r: Result<Day, HH.FieldError>)
    ensures v.None? ==> r == Ok(handlerToday)
    ensures v.Some? ==> (r.Ok? <==> v.value.ADate? && v.value.day <= validatorToday)
    ensures v.Some? && r.Ok? ==> r.value == v.value.day
  {
    HH.DateField("desired_date", v, handlerToday, validatorToday)
  }

  function NotFoundMessage(base: string, quote: string, d: Day): string {
    "No exchange rate found for " + base + " to " + quote + " on " + IsoDate(d)
  }

  datatype Outcome =
    | Unprocessable(detail: string)                    // 422
    | NotFound(day: Day, detail: string)               // 404, after the lookup for `day`
    | InvalidResponse(day: Day)                        // 500, the row found fails the response schema
    | Found(day: Day, body: RSchema.LatestResponse)    // 200, after the lookup for `day`

  /**
    `latest_exchange_rate(base, quote, params)` with `lookup` standing for
    `get_latest_rate(base, quote, desired_date)`.
  */
  function Handle(base: string, quote: string, desired: Day,
                  lookup: (string, string, Day) -> Option<RS.Row>): (r: Outcome)
    ensures r.Unprocessable? <==> !HH.InvolvesUsd(base, quote)
    ensures r.Unprocessable? ==> r.detail == HH.UsdRequired
    ensures !r.Unprocessable? ==> r.day == desired
    ensures r.NotFound? <==> HH.InvolvesUsd(base, quote) && lookup(base, quote, desired).None?
    ensures r.NotFound? ==> r.detail == NotFoundMessage(base, quote, desired)
    ensures r.InvalidResponse? <==>
              HH.InvolvesUsd(base, quote) && lookup(base, quote, desired).Some? && lookup(base, quote, desired).value.rate <= 0.0
    ensures r.Found? ==> var row := lookup(base, quote, desired).value;
                         && row.rate > 0.0
                         && r.body == RSchema.LatestResponse(row.base, row.quote, RSchema.RateData(row.rate, row.asOf))
  {
    var errors := if !HH.InvolvesUsd(base, quote) then [HH.UsdRequired] else [];
    if errors != [] then Unprocessable(Join(errors, "; "))
    else
      match lookup(base, quote, desired)
      case None => NotFound(desired, NotFoundMessage(base, quote, desired))
      case Some(row) =>
        match RSchema.LatestFromRow(row)
        case None => InvalidResponse(desired)
        case Some(body) => Found(desired, body)
  }

  /**
    Against the current service: with no date, the latest stored row on or
    before today is returned unchanged, a pair without one is a 404, and
    only a stored rate that is not positive makes it a server error.
  */
  lemma AgainstTheStore(rows: seq<RS.Row>, base: string, quote: string, validatorToday: Day, today: Day)
    requires HH.InvolvesUsd(base, quote) && !Same(base, quote)
    ensures var d := ParseDesiredDate(None, validatorToday, today).value;
            var r := Handle(base, quote, d, (b, q, d) => RS.LatestRate(rows, b, q, Some(d), today));
            && d == today
            && (r.NotFound? <==> forall i :: 0 <= i < |rows| ==> !RS.LatestCandidate(rows[i], base, quote, today))
            && ((forall i :: 0 <= i < |rows| ==> rows[i].rate > 0.0) ==> !r.InvalidResponse?)
            && (r.Found? ==> r.body.base == base && r.body.quote == quote && r.body.data.date <= today)
  {
    var d := ParseDesiredDate(None, validatorToday, today).value;
    var lookup := (b, q, d) => RS.LatestRate(rows, b, q, Some(d), today);
    var l := RS.LatestOf(rows, base, quote, today);
    assert lookup(base, quote, d) == l;
    if l.Some? {
      var k :| 0 <= k < |rows| && rows[k] == l.value;
    }
  }
}
