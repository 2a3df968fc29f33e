/**
  The older historical route (app/api/historical_exchange_rates.py): no
  store at all. Three checks, the first failing of which is a 400, and then
  one entry per calendar day of the window, each at rate 1.
*/
module LegacyHistoricalRoute {
  import opened Common
  import opened Dates
  import RS = RateStore

  const StartAfterToday: string := "start_date must be before or equal to today"
  const EndAfterToday: string := "end_date must be before or equal to today"
  const StartAfterEnd: string := "start_date must be before or equal to end_date"

  /** `ExchangeRateResponse` */
  datatype Entry = Entry(rate: real, date: Day, fromIsoCode: string, toIsoCode: string)

  datatype Outcome = BadRequest(detail: string) | Entries(entries: seq<Entry>)

  /** The days from `start` to `end`, both included, ascending. */
  function DaysBetween(start: Day, end: Day): (r: seq<Day>)
    ensures |r| == if end < start then 0 else end - start + 1
    ensures forall i :: 0 <= i < |r| ==> r[i] == start + i
  {
    if end < start then [] else seq(end - start + 1, i requires 0 <= i <= end - start => start + i)
  }

  /** The window's defaults: ten years (3652 days) back to today. */
  function Defaults(start: Option<Day>, end: Option<Day>, today: Day): (r: (Day, Day))
    ensures r == (start.GetOr(today - RS.TenYears), end.GetOr(today))
  {
    (start.GetOr(today - RS.TenYears), end.GetOr(today))
  }

  /** `historical_exchange_rates(params)` with `date.today()` passed in. */
  function Handle(fromIsoCode: string, toIsoCode: string, start: Day, end: Day, today: Day): (r: Outcome)
    ensures start > today ==> r == BadRequest(StartAfterToday)
    ensures start <= today && end > today ==> r == BadRequest(EndAfterToday)
    ensures start <= today && end <= today && start > end ==> r == BadRequest(StartAfterEnd)
    ensures r.Entries? <==> start <= end <= today
    ensures r.Entries? ==> && |r.entries| == end - start + 1
                           && forall i :: 0 <= i < |r.entries| ==>
                                r.entries[i] == Entry(1.0, start + i, fromIsoCode, toIsoCode)
  {
    if start > today then BadRequest(StartAfterToday)
    else if end > today then BadRequest(EndAfterToday)
    else if start > end then BadRequest(StartAfterEnd)
    else Entries(Map(DaysBetween(start, end), (d: Day) => Entry(1.0, d, fromIsoCode, toIsoCode)))
  }

  function DatesOf(es: seq<Entry>): (r: seq<Day>)
    ensures |r| == |es| && forall i :: 0 <= i < |es| ==> r[i] == es[i].date
  {
    Map(es, (e: Entry) => e.date)
  }

  /** The entries run through the window one day after another, each day once. */
  lemma EntriesAreConsecutive(fromIsoCode: string, toIsoCode: string, start: Day, end: Day, today: Day)
    requires Handle(fromIsoCode, toIsoCode, start, end, today).Entries?
    ensures var es := Handle(fromIsoCode, toIsoCode, start, end, today).entries;
            && es[0].date == start && es[|es| - 1].date == end
            && (forall i :: 0 < i < |es| ==> es[i].date == es[i - 1].date + 1)
            && (forall d :: d in DatesOf(es) <==> start <= d <= end)
  {
    var es := Handle(fromIsoCode, toIsoCode, start, end, today).entries;
    var ds := DatesOf(es);
    forall d | start <= d <= end ensures d in ds {
      assert ds[d - start] == d;
    }
  }

  /**
    Only the first failing check is reported: a start after today hides an
    end after today and an inverted window.
  */
  lemma FirstFailureOnly(fromIsoCode: string, toIsoCode: string, today: Day)
    ensures Handle(fromIsoCode, toIsoCode, today + 2, today + 1, today) == BadRequest(StartAfterToday)
    ensures Handle(fromIsoCode, toIsoCode, today, today + 1, today) == BadRequest(EndAfterToday)
    ensures Handle(fromIsoCode, toIsoCode, today, today - 1, today) == BadRequest(StartAfterEnd)
  {
  }

  /** 2024-12-31 to 2025-04-01 is 92 days; to 2025-03-15, 75 days. */
  lemma WindowLengths(start: Day, april: Day, march: Day, today: Day)
    requires start == DaysFromCivil(2024, 12, 31)
    requires april == DaysFromCivil(2025, 4, 1) && march == DaysFromCivil(2025, 3, 15)
    requires today >= april
    ensures |Handle("USD", "EUR", start, april, today).entries| == 92
    ensures |Handle("USD", "EUR", start, march, today).entries| == 75
  {
    CivilDistances(start, april, march);
  }

  lemma CivilDistances(start: Day, april: Day, march: Day)
    requires start == DaysFromCivil(2024, 12, 31)
    requires april == DaysFromCivil(2025, 4, 1) && march == DaysFromCivil(2025, 3, 15)
    ensures april - start == 91 && march - start == 74
  {
  }

  /** With both dates defaulted the route returns 3653 entries, ending today. */
  lemma DefaultWindowLength(a: string, b: string, today: Day)
    ensures var (s, e) := Defaults(None, None, today);
            |Handle(a, b, s, e, today).entries| == 3653
            && Handle(a, b, s, e, today).entries[3652].date == today
  {
  }
}
