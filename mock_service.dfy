/**
  The in-memory service double the API tests run against
  (backend/tests/support/mock_exchange_rate_service.py): fixed answers for
  dates, pairs and latest rates, and a historical query over eight fixture
  rows that filters, slices and reverses a local list.
*/
module MockService {
  import opened Common
  import opened Dates
  import opened CurrencyCode
  import opened Sorting
  import opened RateStore
  import HH = HistoricalHandler

  /** Rows built by the test factory carry this data source. */
  const FactorySource: string := "test"

  /** `get_available_dates()`: 2025-04-01, 2025-04-02 and 2025-04-03. */
  function MockAvailableDates(): (r: seq<Day>)
    ensures |r| == 3 && r[0] == DaysFromCivil(2025, 4, 1)
    ensures r[1] == DaysFromCivil(2025, 4, 2) && r[2] == DaysFromCivil(2025, 4, 3)
  {
    [DaysFromCivil(2025, 4, 1), DaysFromCivil(2025, 4, 2), DaysFromCivil(2025, 4, 3)]
  }

  /** The three dates are consecutive days, so they are strictly ascending. */
  lemma MockAvailableDatesConsecutive()
    ensures MockAvailableDates()[1] == MockAvailableDates()[0] + 1
    ensures MockAvailableDates()[2] == MockAvailableDates()[1] + 1
    ensures StrictlySorted(MockAvailableDates(), DayLt)
  {
  }

  /** `get_currency_pairs()`: four pairs into USD, then four out of it. */
  function MockCurrencyPairs(): (r: seq<(string, string)>)
    ensures |r| == 8
  {
    [("EUR", "USD"), ("GBP", "USD"), ("JPY", "USD"), ("SGD", "USD"),
     ("USD", "EUR"), ("USD", "GBP"), ("USD", "JPY"), ("USD", "SGD")]
  }

  /**
    The fixed pairs are listed in the order the real service would list
    them, every pair involves USD, and every pair's inverse is listed too.
  */
  lemma MockCurrencyPairsOrdered()
    ensures StrictlySorted(MockCurrencyPairs(), PairLt)
    ensures forall i :: 0 <= i < 8 ==> MockCurrencyPairs()[i].0 == "USD" || MockCurrencyPairs()[i].1 == "USD"
    ensures forall i :: 0 <= i < 8 ==> (MockCurrencyPairs()[i].1, MockCurrencyPairs()[i].0) in MockCurrencyPairs()
  {
    var r := MockCurrencyPairs();
    MockPairsChained(r);
    PairLtIsStrictTotalOrder();
    ChainSorted(r);
    MockPairsInverses(r);
  }

  lemma CodesInOrder()
    ensures StrLt("EUR", "GBP") && StrLt("GBP", "JPY") && StrLt("JPY", "SGD") && StrLt("SGD", "USD")
  {
  }

  lemma MockPairsChained(r: seq<(string, string)>)
    requires r == MockCurrencyPairs()
    ensures forall i :: 0 <= i < |r| - 1 ==> PairLt(r[i], r[i + 1])
  {
    CodesInOrder();
    assert PairLt(r[0], r[1]) && PairLt(r[1], r[2]) && PairLt(r[2], r[3]) && PairLt(r[3], r[4]);
    assert PairLt(r[4], r[5]) && PairLt(r[5], r[6]) && PairLt(r[6], r[7]);
  }

  lemma MockPairsInverses(r: seq<(string, string)>)
    requires r == MockCurrencyPairs()
    ensures forall i :: 0 <= i < 8 ==> (r[i].1, r[i].0) in r
  {
    assert (r[0].1, r[0].0) == r[4] && (r[1].1, r[1].0) == r[5];
    assert (r[2].1, r[2].0) == r[6] && (r[3].1, r[3].0) == r[7];
    assert (r[4].1, r[4].0) == r[0] && (r[5].1, r[5].0) == r[1];
    assert (r[6].1, r[6].0) == r[2] && (r[7].1, r[7].0) == r[3];
  }

  /** Neighbours in order make the whole sequence ordered, for a transitive order. */
  lemma {:induction false} ChainSorted(s: seq<(string, string)>)
    requires StrictTotalOrder(PairLt)
    requires forall i :: 0 <= i < |s| - 1 ==> PairLt(s[i], s[i + 1])
    ensures StrictlySorted(s, PairLt)
  {
    if |s| > 1 {
      ChainSorted(s[1..]);
      forall j | 1 <= j < |s| ensures PairLt(s[0], s[j]) {
        if j > 1 { assert PairLt(s[1], s[j]) by { assert s[1..][0] == s[1] && s[1..][j - 1] == s[j]; } }
      }
      forall i, j | 0 <= i < j < |s| ensures PairLt(s[i], s[j]) {
        if i > 0 { assert s[1..][i - 1] == s[i] && s[1..][j - 1] == s[j]; }
      }
    }
  }

  /** `get_latest_rate(base, quote, as_of)` of the double, with `date.today()` passed in. */
  function MockLatestRate(base: string, quote: string, asOf: Option<Day>, today: Day): (r: Option<Row>)
    ensures r.Some? <==> Same(base, quote) || (Same(base, "USD") && (Same(quote, "EUR") || Same(quote, "GBP")))
    ensures r.Some? ==> r.value.asOf == asOf.GetOr(today) && r.value.base == base && r.value.quote == quote
  {
    var d := asOf.GetOr(today);
    if Same(base, quote) then Some(Row(d, base, quote, 1.0, Some(FactorySource)))
    else if Same(base, "USD") && Same(quote, "EUR") then Some(Row(d, base, quote, 1.02, Some(FactorySource)))
    else if Same(base, "USD") && Same(quote, "GBP") then Some(Row(d, base, quote, 1.09, Some(FactorySource)))
    else None
  }

  /** The double's fixed rates: one for a same-currency pair, 1.02 USD/EUR, 1.09 USD/GBP. */
  lemma MockLatestRates(today: Day)
    ensures MockLatestRate("USD", "EUR", None, today) == Some(Row(today, "USD", "EUR", 1.02, Some(FactorySource)))
    ensures MockLatestRate("USD", "GBP", None, today) == Some(Row(today, "USD", "GBP", 1.09, Some(FactorySource)))
    ensures MockLatestRate("EUR", "EUR", None, today).value.rate == 1.0
    ensures MockLatestRate("EUR", "USD", None, today).None?
  {
    assert Upper("USD") == "USD" && Upper("EUR") == "EUR" && Upper("GBP") == "GBP";
  }

  /** The eight fixture rows of the historical query, ascending by date. */
  function Fixture(base: string, quote: string): (r: seq<Row>)
    ensures |r| == 8
  {
    [Row(DaysFromCivil(2024, 1, 1), base, quote, 1.00, Some(FactorySource)),
     Row(DaysFromCivil(2024, 1, 2), base, quote, 1.02, Some(FactorySource)),
     Row(DaysFromCivil(2024, 1, 3), base, quote, 1.04, Some(FactorySource)),
     Row(DaysFromCivil(2024, 1, 5), base, quote, 1.05, Some(FactorySource)),
     Row(DaysFromCivil(2024, 4, 2), base, quote, 1.12, Some(FactorySource)),
     Row(DaysFromCivil(2024, 10, 10), base, quote, 0.98, Some(FactorySource)),
     Row(DaysFromCivil(2024, 10, 22), base, quote, 0.95, Some(FactorySource)),
     Row(DaysFromCivil(2024, 10, 31), base, quote, 0.92, Some(FactorySource))]
  }

  /** The fixture rows carry strictly increasing dates, so an ascending page is in date order. */
  lemma FixtureAscending(base: string, quote: string)
    ensures forall i, j :: 0 <= i < j < 8 ==> Fixture(base, quote)[i].asOf < Fixture(base, quote)[j].asOf
  {
    var f := Fixture(base, quote);
    assert f[0].asOf < f[1].asOf < f[2].asOf < f[3].asOf < f[4].asOf < f[5].asOf < f[6].asOf < f[7].asOf;
  }

  /** With no bounds, offset or limit, the ascending page is the whole fixture. */
  lemma UnboundedPageIsFixture(base: string, quote: string)
    ensures Page(Fixture(base, quote), None, None, None, None, Asc) == Fixture(base, quote)
  {
    var f := Fixture(base, quote);
    FilterKeepsAll(f, (x: Row) => NotBefore(x, None));
    FilterKeepsAll(f, (x: Row) => NotAfter(x, None));
  }

  /** Where a Python slice bound `i` lands in a list of length `n`. */
  function SliceIndex(n: nat, i: int): (r: nat)
    ensures r <= n
    ensures 0 <= i ==> r == if i < n then i else n
    ensures i < 0 ==> r == if n + i > 0 then n + i else 0
  {
    if i >= 0 then (if i < n then i else n) else if n + i > 0 then n + i else 0
  }

  /** `s[i:]` */
  function SliceFrom<T>(s: seq<T>, i: int): seq<T> {
    s[SliceIndex(|s|, i)..]
  }

  /** `s[:j]` */
  function SliceTo<T>(s: seq<T>, j: int): seq<T> {
    s[..SliceIndex(|s|, j)]
  }

  predicate NotBefore(x: Row, start: Option<Day>) {
    start.None? || x.asOf >= start.value
  }

  predicate NotAfter(x: Row, end: Option<Day>) {
    end.None? || x.asOf <= end.value
  }

  /** The rows of `rows` within the optional bounds, in their order. */
  function Bounded(rows: seq<Row>, start: Option<Day>, end: Option<Day>): (r: seq<Row>)
    ensures forall x :: x in r <==> x in rows && (start.Some? ==> x.asOf >= start.value) && (end.Some? ==> x.asOf <= end.value)
    ensures |r| <= |rows|
  {
    Filter(Filter(rows, (x: Row) => NotBefore(x, start)), (x: Row) => NotAfter(x, end))
  }

  /** The page of the bounded rows: Python's `[offset:]`, then `[:limit]`, reversed for "desc". */
  function Page(rows: seq<Row>, start: Option<Day>, end: Option<Day>, limit: Option<int>, offset: Option<int>,
                order: SortOrder): seq<Row>
  {
    var filtered := Bounded(rows, start, end);
    var cut := if offset.Some? then SliceFrom(filtered, offset.value) else filtered;
    var page := if limit.Some? then SliceTo(cut, limit.value) else cut;
    if order == Desc then Reverse(page) else page
  }

  /**
    Every row of a page lies within the bounds, a non-negative limit bounds
    its length, and the page of an ascending query is a run of consecutive
    bounded rows.
  */
  lemma PageBounds(rows: seq<Row>, start: Option<Day>, end: Option<Day>, limit: Option<int>, offset: Option<int>,
                   order: SortOrder)
    ensures forall x :: x in Page(rows, start, end, limit, offset, order) ==>
              x in rows && (start.Some? ==> x.asOf >= start.value) && (end.Some? ==> x.asOf <= end.value)
    ensures limit.Some? && limit.value >= 0 ==> |Page(rows, start, end, limit, offset, order)| <= limit.value
    ensures |Page(rows, start, end, limit, offset, order)| <= |Bounded(rows, start, end)|
    ensures order == Asc && offset.Some? && offset.value >= 0 && limit.Some? && limit.value >= 0 ==>
              var f := Bounded(rows, start, end);
              Page(rows, start, end, limit, offset, order)
                == f[SliceIndex(|f|, offset.value)..][..SliceIndex(|f| - SliceIndex(|f|, offset.value), limit.value)]
  {
    var f := Bounded(rows, start, end);
    var cut := if offset.Some? then SliceFrom(f, offset.value) else f;
    var page := if limit.Some? then SliceTo(cut, limit.value) else cut;
    var p := Page(rows, start, end, limit, offset, order);
    PageUnfolded(rows, start, end, limit, offset, order);
    assert |cut| <= |f| && forall x :: x in cut ==> x in f;
    assert |page| <= |cut| && forall x :: x in page ==> x in cut;
    assert limit.Some? && limit.value >= 0 ==> |page| <= limit.value;
    if order == Desc {
      ReverseMembers(page);
    }
  }

  lemma PageUnfolded(rows: seq<Row>, start: Option<Day>, end: Option<Day>, limit: Option<int>, offset: Option<int>,
                     order: SortOrder)
    ensures var f := Bounded(rows, start, end);
            var cut := if offset.Some? then SliceFrom(f, offset.value) else f;
            var page := if limit.Some? then SliceTo(cut, limit.value) else cut;
            Page(rows, start, end, limit, offset, order) == if order == Desc then Reverse(page) else page
  {
  }

  lemma ReverseMembers(s: seq<Row>)
    ensures |Reverse(s)| == |s| && forall x :: x in Reverse(s) ==> x in s
  {
    forall x | x in Reverse(s) ensures x in s {
      var i :| 0 <= i < |s| && Reverse(s)[i] == x;
      assert x == s[|s| - 1 - i];
    }
  }

  /**
    `get_historical_rates(...)` of the double: `rates` is filtered by the
    given bounds, cut by the offset and then the limit, and reversed in
    place for "desc"; the total is counted before any of that.
  */
  method MockHistoricalRates(base: string, quote: string, start: Option<Day>, end: Option<Day>,
                             limit: Option<int>, offset: Option<int>, order: SortOrder)
    returns (rates: seq<Row>, total: int)
    ensures total == 8
    ensures rates == Page(Fixture(base, quote), start, end, limit, offset, order)
  {
    var all := Fixture(base, quote);
    rates := all;
    total := |rates|;
    ghost var pStart := (x: Row) => NotBefore(x, start);
    ghost var pEnd := (x: Row) => NotAfter(x, end);
    if start.Some? {
      FilterSame(rates, (x: Row) => x.asOf >= start.value, pStart);
      rates := Filter(rates, (x: Row) => x.asOf >= start.value);
    } else {
      FilterKeepsAll(rates, pStart);
    }
    ghost var afterStart := rates;
    if end.Some? {
      FilterSame(rates, (x: Row) => x.asOf <= end.value, pEnd);
      rates := Filter(rates, (x: Row) => x.asOf <= end.value);
    } else {
      FilterKeepsAll(rates, pEnd);
    }
    assert rates == Bounded(all, start, end);
    if offset.Some? {
      rates := SliceFrom(rates, offset.value);
    }
    if limit.Some? {
      rates := SliceTo(rates, limit.value);
    }
    if order == Desc {
      rates := Reverse(rates);
    }
  }

  /** Conditions that agree on the elements filter alike. */
  lemma {:induction false} FilterSame<T(!new)>(s: seq<T>, p: T -> bool, q: T -> bool)
    ensures (forall x :: x in s ==> p(x) == q(x)) ==> Filter(s, p) == Filter(s, q)
  {
    if s != [] && forall x :: x in s ==> p(x) == q(x) {
      var tail := s[1..];
      assert forall x :: x in tail ==> x in s;
      FilterSame(tail, p, q);
      assert p(s[0]) == q(s[0]);
    }
  }

  /** The double's answer to the request the handler makes: the page and the count of all fixture rows. */
  function AnswerRequest(req: HH.ServiceRequest): (seq<Row>, int) {
    (Page(Fixture(req.base, req.quote), Some(req.start), Some(req.end), Some(req.limit), Some(req.offset), req.order), 8)
  }

  /** Every fixture rate is positive. */
  lemma FixtureRatesPositive(base: string, quote: string)
    ensures forall x :: x in Fixture(base, quote) ==> x.rate > 0.0
  {
  }

  /**
    The handler wired to the double, whose signature fits the call: a
    request that passes the rules always succeeds, with the double's total
    of eight, its page count, at most `size` entries and every entry inside
    the requested dates.
  */
  lemma HandlerOverMock(base: string, quote: string, p: HH.Params, today: Day)
    requires HH.ValidParams(p) && HH.ValidationErrors(base, quote, p, today) == []
    ensures var r := HH.Handle(base, quote, p, today, AnswerRequest);
            && r.Success?
            && r.body.total == 8 && r.body.pages == HH.Pages(8, p.size)
            && |r.body.data| <= p.size
            && forall k :: 0 <= k < |r.body.data| ==> p.start <= r.body.data[k].date <= p.end
  {
    var req := HH.ServiceRequest(base, quote, p.start, p.end, p.size, HH.Offset(p.page, p.size), p.order);
    var rows := AnswerRequest(req).0;
    PageBounds(Fixture(base, quote), Some(p.start), Some(p.end), Some(p.size), Some(HH.Offset(p.page, p.size)), p.order);
    FixtureRatesPositive(base, quote);
    assert forall i :: 0 <= i < |rows| ==> rows[i] in rows;
  }
}
