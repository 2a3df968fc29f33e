/**
  The response schema of the rate endpoints
  (backend/app/schema/exchange_rate_response.py): each entry carries a rate
  that must be strictly positive. Building a response from a stored row
  whose rate is not positive fails validation, and neither endpoint catches
  that failure, so the request ends in a server error.
*/
module ResponseSchema {
  import opened Common
  import opened Dates
  import RS = RateStore

  /** `ExchangeRateData`: one rate and its date. */
  datatype RateData = RateData(rate: real, date: Day)

  /** `ExchangeRateResponse`: the pair and the single entry of the latest rate. */
  datatype LatestResponse = LatestResponse(base: string, quote: string, data: RateData)

  /** `ExchangeRateData.from_model`: the row's rate and date, when the rate is positive. */
  function DataFromRow(row: RS.Row): (r: Option<RateData>)
    ensures r.Some? <==> row.rate > 0.0
    ensures r.Some? ==> r.value.rate == row.rate && r.value.date == row.asOf
  {
    if row.rate > 0.0 then Some(RateData(row.rate, row.asOf)) else None
  }

  /** `ExchangeRateResponse.from_model`: fails exactly when the entry does. */
  function LatestFromRow(row: RS.Row): (r: Option<LatestResponse>)
    ensures r.Some? <==> row.rate > 0.0
    ensures r.Some? ==> r.value.base == row.base && r.value.quote == row.quote
                        && r.value.data == DataFromRow(row).value
  {
    match DataFromRow(row)
    case None => None
    case Some(d) => Some(LatestResponse(row.base, row.quote, d))
  }

  /**
    The handler's list of entries, one per row in order: a single row with
    a rate that is not positive makes the whole list fail.
  */
  function DataFromRows(rows: seq<RS.Row>): (r: Option<seq<RateData>>)
    ensures r.Some? <==> forall i :: 0 <= i < |rows| ==> rows[i].rate > 0.0
    ensures r.Some? ==> |r.value| == |rows|
                        && forall i :: 0 <= i < |rows| ==> r.value[i] == RateData(rows[i].rate, rows[i].asOf)
  {
    if rows == [] then Some([])
    else
      match (DataFromRow(rows[0]), DataFromRows(rows[1..]))
      case (Some(d), Some(ds)) => Some([d] + ds)
      case _ => None
  }
}
