/**
  The refresh orchestrator (app/services/exchange_rate_refresh.py): work out
  which days of the window have no stored rates, then fetch and store them
  one day at a time, stopping at the first error. The upstream client is
  the OpenExchangeRates model over an HTTP oracle; the store is the
  RateStore class.
*/
module Refresh {
  import opened Common
  import opened Dates
  import opened CurrencyCode
  import opened Sorting
  import opened RateStore
  import OER = OpenExchangeRates

  const BaseCurrency: string := "USD"
  const DataSource: string := "openexchangerates.org"

  /**
    The window `__init__` settles on. A `date` is always truthy, so
    `start_date or default` only falls back when the argument is None.
  */
  function DefaultWindow(start: Option<Day>, end: Option<Day>, today: Day): (r: (Day, Day))
    ensures start.None? ==> r.0 == today - 8
    ensures start.Some? ==> r.0 == start.value
    ensures end.None? ==> r.1 == today - 1
    ensures end.Some? ==> r.1 == end.value
  {
    (start.GetOr(today - 8), end.GetOr(today - 1))
  }

  /**
    `_get_all_dates()`: the days from `start` to `end` that are not among
    `existing`, ascending.
  */
  function MissingDates(start: Day, end: Day, existing: seq<Day>): (r: seq<Day>)
    ensures StrictlySorted(r, DayLt)
    ensures forall d :: d in r <==> start <= d <= end && d !in existing
    ensures forall d :: d in r ==> start <= d
    decreases end - start
  {
    if start > end then []
    else
      var rest := MissingDates(start + 1, end, existing);
      if start in existing then rest
      else
        assert forall j :: 0 <= j < |rest| ==> rest[j] in rest;
        [start] + rest
  }

  /**
    The list is `sorted(set(window) - set(existing))`: any ascending list of
    exactly those days is this one.
  */
  lemma MissingDatesIsSortedDifference(start: Day, end: Day, existing: seq<Day>, s: seq<Day>)
    requires StrictlySorted(s, DayLt)
    requires forall d :: d in s <==> start <= d <= end && d !in existing
    ensures s == MissingDates(start, end, existing)
  {
    DayLtIsStrictTotalOrder();
    SortedUnique(s, MissingDates(start, end, existing), DayLt);
  }

  /** An inverted window, or one whose every day is stored, needs nothing fetched. */
  lemma {:induction false} NothingMissing(start: Day, end: Day, existing: seq<Day>)
    requires end < start || forall d :: start <= d <= end ==> d in existing
    ensures MissingDates(start, end, existing) == []
    decreases end - start
  {
    if start <= end {
      assert start in existing;
      NothingMissing(start + 1, end, existing);
    }
  }

  /** `_save_rates(d, data)`: one params entry per rate, from USD, dated `d`. */
  function RatesParams(d: Day, rates: seq<(string, real)>): (r: seq<CreateParams>)
    ensures |r| == |rates|
    ensures forall i :: 0 <= i < |r| ==> r[i] == CreateParams(d, BaseCurrency, rates[i].0, rates[i].1, DataSource)
  {
    Map(rates, (e: (string, real)) => CreateParams(d, BaseCurrency, e.0, e.1, DataSource))
  }

  datatype RefreshError =
    | FetchFailed(day: Day, clientError: OER.ClientError)
    | StoreFailed(day: Day, createError: CreateError)

  /** What `save()` did: its result, the days it asked the provider for, and the table after it. */
  datatype SaveOutcome = SaveOutcome(result: Result<(), RefreshError>, fetched: seq<Day>, rows: seq<Row>)

  /** An outcome of the later days, after `days` were fetched and stored. */
  function After(days: seq<Day>, later: SaveOutcome): SaveOutcome {
    SaveOutcome(later.result, days + later.fetched, later.rows)
  }

  /**
    One pass of the loop body of `save()`: fetch the day, then store its
    rates; the error raised, if any, and the table after it.
  */
  function DayOutcome(rows: seq<Row>, quantize: real -> real, d: Day,
                      fetch: Day -> Result<OER.HistoricalRates, OER.ClientError>): (r: (Option<RefreshError>, seq<Row>))
    ensures UniqueTriples(rows) ==> UniqueTriples(r.1)
    ensures |rows| <= |r.1| && r.1[..|rows|] == rows
    ensures fetch(d).Err? ==> r == (Some(FetchFailed(d, fetch(d).error)), rows)
    ensures r.0.Some? ==> r.0.value.day == d
    ensures fetch(d).Ok? ==> var c := CreateAll(rows, quantize, RatesParams(d, fetch(d).value.rates));
                             r.1 == c.1 && (r.0.None? <==> c.0.Ok?)
  {
    match fetch(d)
    case Err(e) => (Some(FetchFailed(d, e)), rows)
    case Ok(data) =>
      var (res, rows1) := CreateAll(rows, quantize, RatesParams(d, data.rates));
      (if res.Err? then Some(StoreFailed(d, res.error)) else None, rows1)
  }

  /**
    The `for target_date in dates` loop of `save()` over the table `rows`:
    each day is fetched, then its rates are stored; the first error ends
    the loop. A failing bulk insert keeps the rows its earlier entries wrote.
  */
  function SaveAll(rows: seq<Row>, quantize: real -> real, dates: seq<Day>,
                   fetch: Day -> Result<OER.HistoricalRates, OER.ClientError>): (r: SaveOutcome)
    ensures UniqueTriples(rows) ==> UniqueTriples(r.rows)
    ensures |rows| <= |r.rows| && r.rows[..|rows|] == rows
    decreases |dates|
  {
    if dates == [] then SaveOutcome(Ok(()), [], rows)
    else
      var d := dates[0];
      var (e, rows1) := DayOutcome(rows, quantize, d, fetch);
      if e.Some? then SaveOutcome(Err(e.value), [d], rows1)
      else
        var rest := SaveAll(rows1, quantize, dates[1..], fetch);
        assert dates == [d] + dates[1..];
        After([d], rest)
  }

  /** The provider `save()` calls: `historical_rates_for(d)` over the HTTP oracle `send`. */
  function Fetcher(apiKey: string, send: OER.Request -> OER.Response): Day -> Result<OER.HistoricalRates, OER.ClientError> {
    (d: Day) => OER.HistoricalRatesFor(d, apiKey, send).result
  }

  /**
    `save()` fetches its days in order and stops at the first failing one:
    the days fetched are a prefix of the dates, all of them on success; on
    an error the last day fetched is the one that failed, and every day
    before it was fetched successfully.
  */
  lemma SaveAllStopsAtFirstError(rows: seq<Row>, quantize: real -> real, dates: seq<Day>,
                                 fetch: Day -> Result<OER.HistoricalRates, OER.ClientError>)
    ensures var r := SaveAll(rows, quantize, dates, fetch);
            && |r.fetched| <= |dates| && r.fetched == dates[..|r.fetched|]
            && (r.result.Ok? ==> r.fetched == dates)
            && (r.result.Err? ==> r.fetched != [] && r.result.error.day == r.fetched[|r.fetched| - 1])
            && (forall i :: 0 <= i < |r.fetched| - 1 ==> fetch(r.fetched[i]).Ok?)
  {
    SaveAllFetchesPrefix(rows, quantize, dates, fetch);
    SaveAllFailsLast(rows, quantize, dates, fetch);
  }

  lemma {:induction false} SaveAllFetchesPrefix(rows: seq<Row>, quantize: real -> real, dates: seq<Day>,
                                                fetch: Day -> Result<OER.HistoricalRates, OER.ClientError>)
    ensures var r := SaveAll(rows, quantize, dates, fetch);
            && |r.fetched| <= |dates| && r.fetched == dates[..|r.fetched|]
            && (r.result.Ok? ==> r.fetched == dates)
    decreases |dates|
  {
    if dates != [] {
      var o := DayOutcome(rows, quantize, dates[0], fetch);
      SaveAllUnfold(rows, quantize, dates, fetch);
      if o.0.None? {
        SaveAllFetchesPrefix(o.1, quantize, dates[1..], fetch);
        var rest := SaveAll(o.1, quantize, dates[1..], fetch);
        ConsPrefix(dates, |rest.fetched|);
      }
    }
  }

  lemma {:induction false} SaveAllFailsLast(rows: seq<Row>, quantize: real -> real, dates: seq<Day>,
                                            fetch: Day -> Result<OER.HistoricalRates, OER.ClientError>)
    ensures var r := SaveAll(rows, quantize, dates, fetch);
            && (r.result.Err? ==> r.fetched != [] && r.result.error.day == r.fetched[|r.fetched| - 1])
            && (forall i :: 0 <= i < |r.fetched| - 1 ==> fetch(r.fetched[i]).Ok?)
    decreases |dates|
  {
    if dates != [] {
      var d := dates[0];
      var o := DayOutcome(rows, quantize, d, fetch);
      SaveAllUnfold(rows, quantize, dates, fetch);
      if o.0.None? {
        var rest := SaveAll(o.1, quantize, dates[1..], fetch);
        SaveAllFailsLast(o.1, quantize, dates[1..], fetch);
        var r := SaveAll(rows, quantize, dates, fetch);
        assert r.fetched == [d] + rest.fetched;
        assert fetch(d).Ok?;
        forall i | 0 <= i < |r.fetched| - 1 ensures fetch(r.fetched[i]).Ok? {
          if i > 0 { assert r.fetched[i] == rest.fetched[i - 1]; }
        }
      }
    }
  }

  /** One step of `SaveAll`: the first day's outcome decides whether the rest runs. */
  lemma SaveAllUnfold(rows: seq<Row>, quantize: real -> real, dates: seq<Day>,
                      fetch: Day -> Result<OER.HistoricalRates, OER.ClientError>)
    requires dates != []
    ensures var (e, rows1) := DayOutcome(rows, quantize, dates[0], fetch);
            SaveAll(rows, quantize, dates, fetch)
            == if e.Some? then SaveOutcome(Err(e.value), [dates[0]], rows1)
               else After([dates[0]], SaveAll(rows1, quantize, dates[1..], fetch))
  {
  }

  /**
    One turn of the loop of `save()`: with the first `k` days done, the
    `k`-th day's outcome either ends the whole pass or leaves the days after it.
  */
  lemma SaveStep(rows: seq<Row>, quantize: real -> real, dates: seq<Day>, k: nat,
                 fetch: Day -> Result<OER.HistoricalRates, OER.ClientError>, spec: SaveOutcome)
    requires k < |dates|
    requires spec == After(dates[..k], SaveAll(rows, quantize, dates[k..], fetch))
    ensures var (e, rows1) := DayOutcome(rows, quantize, dates[k], fetch);
            && (e.Some? ==> spec == SaveOutcome(Err(e.value), dates[..k + 1], rows1))
            && (e.None? ==> spec == After(dates[..k + 1], SaveAll(rows1, quantize, dates[k + 1..], fetch)))
  {
    PrefixStep(dates, k);
    SaveAllUnfold(rows, quantize, dates[k..], fetch);
    var (e, rows1) := DayOutcome(rows, quantize, dates[k], fetch);
    if e.None? {
      AfterAfter(dates[..k], [dates[k]], SaveAll(rows1, quantize, dates[k + 1..], fetch));
    }
  }

  lemma ConsPrefix<T>(s: seq<T>, n: nat)
    requires n < |s|
    ensures s[..n + 1] == [s[0]] + s[1..][..n]
  {
  }

  lemma PrefixStep<T>(s: seq<T>, k: nat)
    requires k < |s|
    ensures s[..k + 1] == s[..k] + [s[k]]
    ensures s[k..][0] == s[k] && s[k..][1..] == s[k + 1..]
  {
  }

  lemma AfterAfter(a: seq<Day>, b: seq<Day>, later: SaveOutcome)
    ensures After(a, After(b, later)) == After(a + b, later)
  {
    assert a + (b + later.fetched) == (a + b) + later.fetched;
  }

  /** The number of parameters whose currencies differ: each of these writes two rows. */
  function Distinctly(ps: seq<CreateParams>): (n: nat)
    ensures n <= |ps|
  {
    if ps == [] then 0 else (if Same(ps[0].base, ps[0].quote) then 0 else 1) + Distinctly(ps[1..])
  }

  /**
    A bulk insert that succeeds writes two rows per pair of different
    currencies and none for a same-currency pair, and every row it writes
    joins two different currencies.
  */
  lemma {:induction false} CreateAllWrites(rows: seq<Row>, quantize: real -> real, ps: seq<CreateParams>)
    ensures var (res, rows') := CreateAll(rows, quantize, ps);
            res.Ok? ==> |rows'| == |rows| + 2 * Distinctly(ps)
    ensures var rows' := CreateAll(rows, quantize, ps).1;
            forall i :: |rows| <= i < |rows'| ==> !Same(rows'[i].base, rows'[i].quote)
    decreases |ps|
  {
    if ps != [] {
      var p := ps[0];
      CreateAllUnfold(rows, quantize, ps);
      var (first, rows1) := Create(rows, quantize, p.asOf, p.base, p.quote, p.rate, p.source);
      CreateWrites(rows, quantize, p);
      if first.Ok? {
        CreateAllWrites(rows1, quantize, ps[1..]);
        var rows' := CreateAll(rows, quantize, ps).1;
        assert rows' == CreateAll(rows1, quantize, ps[1..]).1;
        assert rows'[..|rows1|] == rows1;
        forall i | |rows| <= i < |rows'| ensures !Same(rows'[i].base, rows'[i].quote) {
          if i < |rows1| { assert rows'[i] == rows1[i]; }
        }
      }
    }
  }

  /** One `create_rate` that succeeds writes two rows for different currencies and none otherwise. */
  lemma CreateWrites(rows: seq<Row>, quantize: real -> real, p: CreateParams)
    ensures var (res, rows') := Create(rows, quantize, p.asOf, p.base, p.quote, p.rate, p.source);
            && (res.Ok? ==> |rows'| == |rows| + if Same(p.base, p.quote) then 0 else 2)
            && forall i :: |rows| <= i < |rows'| ==> !Same(rows'[i].base, rows'[i].quote)
  {
    if !Same(p.base, p.quote) {
      SameIffUpperEqual(p.base, p.quote);
      SameIffUpperEqual(p.quote, p.base);
    }
  }

  /** The rows written for the stored days: two per rate whose code is not USD. */
  function Written(dates: seq<Day>, fetch: Day -> Result<OER.HistoricalRates, OER.ClientError>): nat {
    if dates == [] then 0
    else
      (if fetch(dates[0]).Ok? then 2 * Distinctly(RatesParams(dates[0], fetch(dates[0]).value.rates)) else 0)
      + Written(dates[1..], fetch)
  }

  /**
    A `save()` that succeeds grows the table by exactly the rows of its days,
    and none of them pairs a currency with itself, USD to USD included.
  */
  lemma {:induction false} SaveAllWrites(rows: seq<Row>, quantize: real -> real, dates: seq<Day>,
                                         fetch: Day -> Result<OER.HistoricalRates, OER.ClientError>)
    ensures var r := SaveAll(rows, quantize, dates, fetch);
            r.result.Ok? ==> |r.rows| == |rows| + Written(dates, fetch)
    ensures var r := SaveAll(rows, quantize, dates, fetch);
            forall i :: |rows| <= i < |r.rows| ==> !Same(r.rows[i].base, r.rows[i].quote)
    decreases |dates|
  {
    if dates != [] {
      var d := dates[0];
      if fetch(d).Ok? {
        var ps := RatesParams(d, fetch(d).value.rates);
        CreateAllWrites(rows, quantize, ps);
        var (res, rows1) := CreateAll(rows, quantize, ps);
        if res.Ok? {
          SaveAllWrites(rows1, quantize, dates[1..], fetch);
          var r := SaveAll(rows, quantize, dates, fetch);
          assert r.rows == SaveAll(rows1, quantize, dates[1..], fetch).rows;
          forall i | |rows| <= i < |r.rows| ensures !Same(r.rows[i].base, r.rows[i].quote) {
            if i < |rows1| { assert r.rows[i] == rows1[i]; }
          }
        }
      }
    }
  }

  /**
    A day's params write nothing for the USD entry itself: with 169 codes of
    which one is USD, a successful day writes 2 * 168 = 336 rows, and two
    such days 672.
  */
  lemma {:induction false} UsdEntryWritesNothing(d: Day, rates: seq<(string, real)>)
    ensures Distinctly(RatesParams(d, rates)) == |rates| - |Filter(rates, (e: (string, real)) => Same(BaseCurrency, e.0))|
    decreases |rates|
  {
    if rates != [] {
      UsdEntryWritesNothing(d, rates[1..]);
      var ps := RatesParams(d, rates);
      assert ps[1..] == RatesParams(d, rates[1..]);
      assert rates[1..] == rates[1..];
    }
  }

  /** The orchestrator: its window, and the store it fills. */
  class ExchangeRateRefresh {
    const startDate: Day
    const endDate: Day
    const apiKey: string
    const store: Store

    constructor (store: Store, start: Option<Day>, end: Option<Day>, today: Day, apiKey: string)
      ensures (startDate, endDate) == DefaultWindow(start, end, today)
      ensures this.store == store && this.apiKey == apiKey
    {
      startDate := start.GetOr(today - 8);
      endDate := end.GetOr(today - 1);
      this.store := store;
      this.apiKey := apiKey;
    }

    /** `_get_all_dates()` against the store's `get_available_dates()`. */
    function AllDates(): (r: seq<Day>)
      reads this, store
      ensures r == MissingDates(startDate, endDate, AvailableDates(store.rows))
    {
      MissingDates(startDate, endDate, AvailableDates(store.rows))
    }

    /**
      `save()` with `send` standing for the HTTP exchange: returns the error
      it re-raises, if any, and the days it fetched.
    */
    method Save(send: OER.Request -> OER.Response) returns (r: Result<(), RefreshError>, fetched: seq<Day>)
      requires store.Valid()
      modifies store
      ensures store.Valid()
      ensures var spec := SaveAll(old(store.rows), store.quantize, old(AllDates()), Fetcher(apiKey, send));
              r == spec.result && fetched == spec.fetched && store.rows == spec.rows
    {
      var dates := AllDates();
      r, fetched := SaveDates(dates, send);
    }

    /** The loop of `save()` over the days `dates`. */
    method SaveDates(dates: seq<Day>, send: OER.Request -> OER.Response)
      returns (r: Result<(), RefreshError>, fetched: seq<Day>)
      requires store.Valid()
      modifies store
      ensures store.Valid()
      ensures var spec := SaveAll(old(store.rows), store.quantize, dates, Fetcher(apiKey, send));
              r == spec.result && fetched == spec.fetched && store.rows == spec.rows
    {
      ghost var fetch := Fetcher(apiKey, send);
      ghost var spec := SaveAll(store.rows, store.quantize, dates, fetch);
      fetched := [];
      var k := 0;
      assert dates[k..] == dates;
      assert After([], spec) == spec;
      while k < |dates|
        invariant 0 <= k <= |dates|
        invariant store.Valid()
        invariant fetched == dates[..k]
        invariant spec == After(fetched, SaveAll(store.rows, store.quantize, dates[k..], fetch))
      {
        var d := dates[k];
        SaveStep(store.rows, store.quantize, dates, k, fetch, spec);
        PrefixStep(dates, k);
        fetched := fetched + [d];
        var e := SaveDay(d, send);
        if e.Some? {
          assert spec == SaveOutcome(Err(e.value), fetched, store.rows);
          return Err(e.value), fetched;
        }
        k := k + 1;
      }
      assert dates[k..] == [];
      assert SaveAll(store.rows, store.quantize, dates[k..], fetch) == SaveOutcome(Ok(()), [], store.rows);
      assert fetched + [] == fetched;
      return Ok(()), fetched;
    }
  
    /** The body of the loop of `save()` for the day `d`. */
    method SaveDay(d: Day, send: OER.Request -> OER.Response) returns (e: Option<RefreshError>)
      requires store.Valid()
      modifies store
      ensures store.Valid()
      ensures (e, store.rows) == DayOutcome(old(store.rows), store.quantize, d, Fetcher(apiKey, send))
    {
      var call := OER.HistoricalRatesFor(d, apiKey, send);
      assert Fetcher(apiKey, send)(d) == call.result;
      if call.result.Err? {
        return Some(FetchFailed(d, call.result.error));
      }
      var stored := store.BulkCreateRates(RatesParams(d, call.result.value.rates));
      if stored.Err? {
        return Some(StoreFailed(d, stored.error));
      }
      return None;
    }
  }
}
