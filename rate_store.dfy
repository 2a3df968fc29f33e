/**
  The exchange-rate table and the service that reads and writes it
  (app/services/exchange_rate_service.py over app/models/exchange_rate.py).

  The table is a sequence of rows. The database keeps the triple
  (as_of, base, quote) unique and stores rates with 8 fractional digits;
  the rounding belongs to the database, so it is the store's `quantize`
  function, left uninterpreted. Queries are functions over the rows;
  `create_rate` is a method of the store that appends rows.
*/
module RateStore {
  import opened Common
  import opened Dates
  import opened CurrencyCode
  import opened Sorting

  /** MAX_RECORDS_PER_REQUEST */
  const MaxRecordsPerRequest: nat := 1000

  /** `timedelta(days=365.25 * 10)`: date arithmetic uses only its whole days. */
  const TenYears: int := 3652

  /** One stored rate. `source` is absent only on the unsaved same-currency row. */
  datatype Row = Row(asOf: Day, base: string, quote: string, rate: real, source: Option<string>)

  function Key(r: Row): (Day, string, string) {
    (r.asOf, r.base, r.quote)
  }

  /** The unique_together constraint on (as_of, base_currency_code, quote_currency_code). */
  predicate UniqueTriples(rows: seq<Row>) {
    forall i, j :: 0 <= i < j < |rows| ==> Key(rows[i]) != Key(rows[j])
  }

  function AsOfs(rows: seq<Row>): (r: seq<Day>)
    ensures |r| == |rows| && forall i :: 0 <= i < |rows| ==> r[i] == rows[i].asOf
  {
    seq(|rows|, i requires 0 <= i < |rows| => rows[i].asOf)
  }

  function Pairs(rows: seq<Row>): (r: seq<(string, string)>)
    ensures |r| == |rows| && forall i :: 0 <= i < |rows| ==> r[i] == (rows[i].base, rows[i].quote)
  {
    seq(|rows|, i requires 0 <= i < |rows| => (rows[i].base, rows[i].quote))
  }

  // ---------------------------------------------------------------------
  // Orders used by ORDER BY

  const DayLt: (Day, Day) -> bool := (a: Day, b: Day) => a < b

  /** ORDER BY base_currency_code, quote_currency_code */
  function PairLt(p: (string, string), q: (string, string)): bool {
    StrLt(p.0, q.0) || (p.0 == q.0 && StrLt(p.1, q.1))
  }

  lemma DayLtIsStrictTotalOrder()
    ensures StrictTotalOrder(DayLt)
  {
  }

  lemma PairLtIsStrictTotalOrder()
    ensures StrictTotalOrder(PairLt)
  {
    forall a: (string, string) ensures !PairLt(a, a) {
      StrLtIrreflexive(a.0);
      StrLtIrreflexive(a.1);
    }
    forall a: (string, string), b: (string, string), c: (string, string) | PairLt(a, b) && PairLt(b, c)
      ensures PairLt(a, c)
    {
      StrLtIrreflexive(a.0);
      StrLtIrreflexive(b.0);
      if StrLt(a.0, b.0) && StrLt(b.0, c.0) { StrLtTransitive(a.0, b.0, c.0); }
      if a.0 == b.0 && b.0 == c.0 { StrLtTransitive(a.1, b.1, c.1); }
    }
    forall a: (string, string), b: (string, string) | a != b ensures PairLt(a, b) || PairLt(b, a) {
      if a.0 != b.0 { StrLtTotal(a.0, b.0); } else { StrLtTotal(a.1, b.1); }
    }
  }

  // ---------------------------------------------------------------------
  // get_available_dates / get_currency_pairs

  /** `get_available_dates()`: DISTINCT as_of ORDER BY as_of. */
  function AvailableDates(rows: seq<Row>): (r: seq<Day>)
    ensures StrictlySorted(r, DayLt)
    ensures Elems(r) == Elems(AsOfs(rows))
  {
    DayLtIsStrictTotalOrder();
    SortedDistinctSorted(AsOfs(rows), DayLt);
    SortedDistinct(AsOfs(rows), DayLt)
  }

  /** The answer does not depend on the order of the rows: any ascending list of the stored dates is it. */
  lemma AvailableDatesDetermined(rows: seq<Row>, s: seq<Day>)
    requires StrictlySorted(s, DayLt)
    requires Elems(s) == Elems(AsOfs(rows))
    ensures s == AvailableDates(rows)
  {
    DayLtIsStrictTotalOrder();
    SortedUnique(s, AvailableDates(rows), DayLt);
  }

  /** Every stored date appears exactly once. */
  lemma AvailableDatesOnceEach(rows: seq<Row>)
    ensures forall i, j :: 0 <= i < j < |AvailableDates(rows)| ==> AvailableDates(rows)[i] < AvailableDates(rows)[j]
    ensures forall d :: d in AvailableDates(rows) <==> exists i :: 0 <= i < |rows| && rows[i].asOf == d
  {
    var r := AvailableDates(rows);
    forall d ensures d in r <==> exists i :: 0 <= i < |rows| && rows[i].asOf == d {
      assert d in r <==> d in Elems(AsOfs(rows));
      if d in AsOfs(rows) {
        var i :| 0 <= i < |rows| && AsOfs(rows)[i] == d;
        assert rows[i].asOf == d;
      }
      if exists i :: 0 <= i < |rows| && rows[i].asOf == d {
        var i :| 0 <= i < |rows| && rows[i].asOf == d;
        assert AsOfs(rows)[i] == d;
      }
    }
  }

  /** `get_currency_pairs()`: DISTINCT (base, quote) ORDER BY base, quote. */
  function CurrencyPairs(rows: seq<Row>): (r: seq<(string, string)>)
    ensures StrictlySorted(r, PairLt)
    ensures Elems(r) == Elems(Pairs(rows))
  {
    PairLtIsStrictTotalOrder();
    SortedDistinctSorted(Pairs(rows), PairLt);
    SortedDistinct(Pairs(rows), PairLt)
  }

  lemma CurrencyPairsDetermined(rows: seq<Row>, s: seq<(string, string)>)
    requires StrictlySorted(s, PairLt)
    requires Elems(s) == Elems(Pairs(rows))
    ensures s == CurrencyPairs(rows)
  {
    PairLtIsStrictTotalOrder();
    SortedUnique(s, CurrencyPairs(rows), PairLt);
  }

  // ---------------------------------------------------------------------
  // get_latest_rate

  /** Row of exactly (base, quote) dated on or before `d`. */
  predicate LatestCandidate(x: Row, base: string, quote: string, d: Day) {
    x.base == base && x.quote == quote && x.asOf <= d
  }

  /** The candidate with the greatest as_of: ORDER BY -as_of, first row. */
  function LatestOf(rows: seq<Row>, base: string, quote: string, d: Day): (r: Option<Row>)
    ensures r.None? <==> forall i :: 0 <= i < |rows| ==> !LatestCandidate(rows[i], base, quote, d)
    ensures r.Some? ==> r.value in rows && LatestCandidate(r.value, base, quote, d)
    ensures r.Some? ==> forall i :: 0 <= i < |rows| && LatestCandidate(rows[i], base, quote, d)
                                    ==> rows[i].asOf <= r.value.asOf
  {
    if rows == [] then None
    else
      var rest := LatestOf(rows[1..], base, quote, d);
      assert forall i :: 1 <= i < |rows| ==> rows[i] == rows[1..][i - 1];
      if LatestCandidate(rows[0], base, quote, d) && (rest.None? || rest.value.asOf < rows[0].asOf)
      then Some(rows[0])
      else rest
  }

  /** `get_latest_rate(base, quote, as_of)` with `date.today()` passed in. */
  function LatestRate(rows: seq<Row>, base: string, quote: string, asOf: Option<Day>, today: Day): (r: Option<Row>)
    ensures Same(base, quote) ==> r == Some(Row(asOf.GetOr(today), base, quote, 1.0, None))
    ensures !Same(base, quote) ==> r == LatestOf(rows, base, quote, asOf.GetOr(today))
  {
    var d := asOf.GetOr(today);
    if Same(base, quote) then Some(Row(d, base, quote, 1.0, None))
    else LatestOf(rows, base, quote, d)
  }

  /**
    In a table with unique triples the latest row is the only possible
    answer: a candidate that no other candidate post-dates is the result.
  */
  lemma LatestIsDetermined(rows: seq<Row>, base: string, quote: string, d: Day, x: Row)
    requires UniqueTriples(rows)
    requires x in rows && LatestCandidate(x, base, quote, d)
    requires forall i :: 0 <= i < |rows| && LatestCandidate(rows[i], base, quote, d) ==> rows[i].asOf <= x.asOf
    ensures LatestOf(rows, base, quote, d) == Some(x)
  {
    var r := LatestOf(rows, base, quote, d);
    var i :| 0 <= i < |rows| && rows[i] == x;
    var j :| 0 <= j < |rows| && rows[j] == r.value;
    assert Key(rows[i]) == Key(rows[j]);
    assert i == j;
  }

  // ---------------------------------------------------------------------
  // get_historical_rates

  datatype SortOrder = Asc | Desc

  predicate InWindow(x: Row, base: string, quote: string, start: Day, end: Day) {
    x.base == base && x.quote == quote && start <= x.asOf <= end
  }

  /** The WHERE clause: rows of exactly (base, quote) with start <= as_of <= end, in table order. */
  function Window(rows: seq<Row>, base: string, quote: string, start: Day, end: Day): (r: seq<Row>)
    ensures forall x :: x in r <==> x in rows && InWindow(x, base, quote, start, end)
    ensures UniqueTriples(rows) ==> UniqueTriples(r)
    ensures |r| <= |rows|
  {
    if rows == [] then []
    else
      var rest := Window(rows[1..], base, quote, start, end);
      assert forall x :: x in rows <==> x == rows[0] || x in rows[1..];
      if InWindow(rows[0], base, quote, start, end) then
        assert UniqueTriples(rows) ==> forall x :: x in rest ==> Key(x) != Key(rows[0]) by {
          if UniqueTriples(rows) {
            forall x | x in rest ensures Key(x) != Key(rows[0]) {
              var k :| 1 <= k < |rows| && rows[k] == x;
            }
          }
        }
        [rows[0]] + rest
      else rest
  }

  /** Rows sharing base and quote have distinct dates when triples are unique. */
  predicate UniqueDates(rs: seq<Row>) {
    forall i, j :: 0 <= i < j < |rs| ==> rs[i].asOf != rs[j].asOf
  }

  lemma WindowHasUniqueDates(rows: seq<Row>, base: string, quote: string, start: Day, end: Day)
    requires UniqueTriples(rows)
    ensures UniqueDates(Window(rows, base, quote, start, end))
  {
    var w := Window(rows, base, quote, start, end);
    forall i, j | 0 <= i < j < |w| ensures w[i].asOf != w[j].asOf {
      assert w[i] in w && w[j] in w;
      assert Key(w[i]) != Key(w[j]);
    }
  }

  /** The first row dated `d`. */
  function RowOn(rs: seq<Row>, d: Day): (r: Row)
    requires d in AsOfs(rs)
    ensures r in rs && r.asOf == d
  {
    if rs[0].asOf == d then rs[0]
    else
      assert d in AsOfs(rs[1..]) by {
        var i :| 0 <= i < |rs| && AsOfs(rs)[i] == d;
        assert AsOfs(rs[1..])[i - 1] == d;
      }
      RowOn(rs[1..], d)
  }

  lemma RowOnUnique(rs: seq<Row>, x: Row)
    requires UniqueDates(rs) && x in rs
    ensures x.asOf in AsOfs(rs) && RowOn(rs, x.asOf) == x
  {
    var i :| 0 <= i < |rs| && rs[i] == x;
    assert AsOfs(rs)[i] == x.asOf;
    var y := RowOn(rs, x.asOf);
    var j :| 0 <= j < |rs| && rs[j] == y;
    assert i == j;
  }

  /** ORDER BY as_of on rows whose dates are distinct. */
  function SortByDate(rs: seq<Row>): (r: seq<Row>)
    requires UniqueDates(rs)
    ensures forall i, j :: 0 <= i < j < |r| ==> r[i].asOf < r[j].asOf
    ensures forall x :: x in r <==> x in rs
    ensures |r| == |rs|
  {
    DayLtIsStrictTotalOrder();
    var ds := SortedDistinct(AsOfs(rs), DayLt);
    SortedDistinctSorted(AsOfs(rs), DayLt);
    forall d | d in ds ensures d in AsOfs(rs) { assert d in Elems(ds); }
    var r := seq(|ds|, i requires 0 <= i < |ds| => RowOn(rs, ds[i]));
    forall x | x in rs ensures x in r {
      RowOnUnique(rs, x);
      assert x.asOf in Elems(ds);
      var i :| 0 <= i < |ds| && ds[i] == x.asOf;
      assert r[i] == x;
    }
    SortedHasNoDuplicates(ds, DayLt);
    DistinctCard(ds);
    DistinctCard(AsOfs(rs));
    r
  }

  function Reverse<T>(s: seq<T>): (r: seq<T>)
    ensures |r| == |s| && forall i :: 0 <= i < |s| ==> r[i] == s[|s| - 1 - i]
  {
    seq(|s|, i requires 0 <= i < |s| => s[|s| - 1 - i])
  }

  /** LIMIT n */
  function Take<T>(s: seq<T>, n: nat): (r: seq<T>)
    ensures |r| == if n < |s| then n else |s|
    ensures r == s[..|r|]
  {
    if n < |s| then s[..n] else s
  }

  /** The window of the query after the defaults have been filled in. */
  datatype Query = Query(start: Day, end: Day, limit: nat)

  /** Defaults: end = today, start = end - 10 years, limit = MAX_RECORDS_PER_REQUEST. */
  function Defaults(start: Option<Day>, end: Option<Day>, limit: Option<nat>, today: Day): (q: Query)
    ensures q.end == end.GetOr(today)
    ensures q.start == start.GetOr(q.end - TenYears)
    ensures q.limit == limit.GetOr(MaxRecordsPerRequest)
  {
    var e := end.GetOr(today);
    Query(start.GetOr(e - TenYears), e, limit.GetOr(MaxRecordsPerRequest))
  }

  const StartAfterEnd: string := "start_date must be before or equal to today"

  /** `x` comes before `y` in the requested direction. */
  predicate Before(x: Row, y: Row, order: SortOrder) {
    if order == Asc then x.asOf < y.asOf else x.asOf > y.asOf
  }

  predicate SortedIn(rs: seq<Row>, order: SortOrder) {
    forall i, j :: 0 <= i < j < |rs| ==> Before(rs[i], rs[j], order)
  }

  /** ORDER BY as_of or ORDER BY -as_of, from the ascending list. */
  function Directed(asc: seq<Row>, order: SortOrder): (r: seq<Row>)
    requires SortedIn(asc, Asc)
    ensures SortedIn(r, order)
    ensures forall x :: x in r <==> x in asc
    ensures |r| == |asc|
  {
    if order == Asc then asc
    else
      var r := Reverse(asc);
      assert forall x :: x in asc ==> x in r by {
        forall x | x in asc ensures x in r {
          var i :| 0 <= i < |asc| && asc[i] == x;
          assert r[|asc| - 1 - i] == x;
        }
      }
      r
  }

  /** What LIMIT leaves out comes after everything it keeps. */
  lemma TakeKeepsFirst(f: seq<Row>, n: nat, order: SortOrder)
    requires SortedIn(f, order)
    ensures SortedIn(Take(f, n), order)
    ensures forall x, y :: x in f && x !in Take(f, n) && y in Take(f, n) ==> Before(y, x, order)
  {
    var t := Take(f, n);
    forall x, y | x in f && x !in t && y in t ensures Before(y, x, order) {
      var i :| 0 <= i < |f| && f[i] == x;
      var j :| 0 <= j < |t| && t[j] == y;
      assert f[j] == y;
      assert i >= |t|;
    }
  }

  /** `get_historical_rates(base, quote, start_date, end_date, limit, sort_order)` */
  function HistoricalRates(rows: seq<Row>, base: string, quote: string, start: Option<Day>, end: Option<Day>,
                           limit: Option<nat>, order: SortOrder, today: Day): (r: Result<seq<Row>, string>)
    requires UniqueTriples(rows)
    ensures var q := Defaults(start, end, limit, today);
            r.Err? <==> q.start > q.end
    ensures r.Err? ==> r.error == StartAfterEnd
    ensures r.Ok? ==> var q := Defaults(start, end, limit, today);
                      |r.value| <= q.limit && SortedIn(r.value, order)
                      && forall x :: x in r.value ==> x in rows && InWindow(x, base, quote, q.start, q.end)
    ensures r.Ok? ==> var q := Defaults(start, end, limit, today);
                      var n := |Window(rows, base, quote, q.start, q.end)|;
                      |r.value| == if n < q.limit then n else q.limit
  {
    var q := Defaults(start, end, limit, today);
    if q.start > q.end then Err(StartAfterEnd)
    else
      WindowHasUniqueDates(rows, base, quote, q.start, q.end);
      var f := Directed(SortByDate(Window(rows, base, quote, q.start, q.end)), order);
      TakeKeepsFirst(f, q.limit, order);
      Ok(Take(f, q.limit))
  }

  /**
    The rows the historical query returns are the first `limit` rows of the
    window in the requested direction: any window row left out lies beyond
    every returned one, and when the window holds at most `limit` rows all
    of them are returned.
  */
  lemma HistoricalRatesFirstOfWindow(rows: seq<Row>, base: string, quote: string, start: Option<Day>, end: Option<Day>,
                                     limit: Option<nat>, order: SortOrder, today: Day)
    requires UniqueTriples(rows)
    requires HistoricalRates(rows, base, quote, start, end, limit, order, today).Ok?
    ensures var q := Defaults(start, end, limit, today);
            var r := HistoricalRates(rows, base, quote, start, end, limit, order, today).value;
            forall x, y :: x in rows && InWindow(x, base, quote, q.start, q.end) && x !in r && y in r
                  ==> Before(y, x, order)
    ensures var q := Defaults(start, end, limit, today);
            var r := HistoricalRates(rows, base, quote, start, end, limit, order, today).value;
            |Window(rows, base, quote, q.start, q.end)| <= q.limit ==>
              forall x :: x in rows && InWindow(x, base, quote, q.start, q.end) ==> x in r
    ensures var q := Defaults(start, end, limit, today);
            var r := HistoricalRates(rows, base, quote, start, end, limit, order, today).value;
            |Window(rows, base, quote, q.start, q.end)| > q.limit ==> |r| == q.limit
  {
    var q := Defaults(start, end, limit, today);
    WindowHasUniqueDates(rows, base, quote, q.start, q.end);
    var w := Window(rows, base, quote, q.start, q.end);
    var f := Directed(SortByDate(w), order);
    TakeKeepsFirst(f, q.limit, order);
  }

  /** The default window is ten years back from today, today included. */
  lemma HistoricalDefaults(today: Day)
    ensures Defaults(None, None, None, today) == Query(today - 3652, today, 1000)
  {
  }

  /** A start after the end is rejected before the table is read. */
  lemma HistoricalRejectsInvertedRange(rows: seq<Row>, rows': seq<Row>, base: string, quote: string, s: Day, e: Day,
                                       limit: Option<nat>, order: SortOrder, today: Day)
    requires UniqueTriples(rows) && UniqueTriples(rows')
    requires s > e
    ensures HistoricalRates(rows, base, quote, Some(s), Some(e), limit, order, today) == Err(StartAfterEnd)
    ensures HistoricalRates(rows, base, quote, Some(s), Some(e), limit, order, today)
         == HistoricalRates(rows', base, quote, Some(s), Some(e), limit, order, today)
  {
  }

  // ---------------------------------------------------------------------
  // create_rate

  datatype CreateError =
    | DivisionByZero                                       // `1 / rate` with rate 0
    | InsertFailed(base: string, quote: string, asOf: Day)  // the bulk insert was refused

  /** The ValueError text; `cause` is the database's own message. */
  function CreateErrorMessage(e: CreateError, cause: string): string {
    match e
    case DivisionByZero => "division by zero"
    case InsertFailed(b, q, d) =>
      "Failed to create exchange rate for " + b + " to " + q + " on " + IsoDate(d) + " with error " + cause
  }

  /** Would inserting `x` violate the unique constraint? */
  predicate Conflicts(rows: seq<Row>, x: Row) {
    exists i :: 0 <= i < |rows| && Key(rows[i]) == Key(x)
  }

  /**
    `create_rate(as_of, base, quote, rate, source)` as a function of the
    table: the result and the new table. The two rows go in one INSERT, so
    either both are stored or neither. The returned rows are the unsaved
    objects and carry the exact rates; the stored ones are quantised.
  */
  function Create(rows: seq<Row>, quantize: real -> real, asOf: Day, base: string, quote: string,
                  rate: real, source: string): (r: (Result<seq<Row>, CreateError>, seq<Row>))
    ensures |rows| <= |r.1| && r.1[..|rows|] == rows
  {
    if Same(base, quote) then (Ok([]), rows)
    else if rate == 0.0 then (Err(DivisionByZero), rows)
    else
      var forward := Row(asOf, base, quote, rate, Some(source));
      var inverse := Row(asOf, quote, base, 1.0 / rate, Some(source));
      if Conflicts(rows, forward) || Conflicts(rows, inverse) then
        (Err(InsertFailed(base, quote, asOf)), rows)
      else
        (Ok([forward, inverse]), rows + [forward.(rate := quantize(rate)), inverse.(rate := quantize(1.0 / rate))])
  }

  /** create_rate keeps the table's unique constraint. */
  lemma CreatePreservesUniqueness(rows: seq<Row>, quantize: real -> real, asOf: Day, base: string, quote: string,
                                  rate: real, source: string)
    ensures UniqueTriples(rows) ==> UniqueTriples(Create(rows, quantize, asOf, base, quote, rate, source).1)
  {
    var (res, rows') := Create(rows, quantize, asOf, base, quote, rate, source);
    if UniqueTriples(rows) && res.Ok? && res.value != [] {
      assert !Same(base, quote);
      assert base != quote;
      forall i, j | 0 <= i < j < |rows'| ensures Key(rows'[i]) != Key(rows'[j]) {
        if j >= |rows| && i < |rows| {
          assert Key(rows'[j]) == Key(res.value[j - |rows|]);
        }
      }
    }
  }

  /** Same-currency pairs write nothing and return []. */
  lemma CreateSameCurrency(rows: seq<Row>, quantize: real -> real, asOf: Day, base: string, quote: string,
                           rate: real, source: string)
    requires Same(base, quote)
    ensures Create(rows, quantize, asOf, base, quote, rate, source) == (Ok([]), rows)
  {
  }

  /**
    The outcomes of create_rate: on success the table gains exactly the
    forward row (base to quote at `rate`) and the inverse row (quote to
    base at 1/rate), both dated `as_of` with the given source, and these
    two rows are returned; on any error the table is unchanged; the insert
    is refused exactly when one of the two triples is already stored.
  */
  lemma CreateOutcomes(rows: seq<Row>, quantize: real -> real, asOf: Day, base: string, quote: string,
                       rate: real, source: string)
    requires !Same(base, quote) && rate != 0.0
    ensures var (res, rows') := Create(rows, quantize, asOf, base, quote, rate, source);
            && (res.Err? ==> rows' == rows)
            && (res.Err? <==> (exists x :: x in rows && Key(x) == (asOf, base, quote))
                              || (exists x :: x in rows && Key(x) == (asOf, quote, base)))
            && (res.Err? ==> res.error == InsertFailed(base, quote, asOf))
            && (res.Ok? ==> && res.value == [Row(asOf, base, quote, rate, Some(source)),
                                             Row(asOf, quote, base, 1.0 / rate, Some(source))]
                            && |rows'| == |rows| + 2 && rows'[..|rows|] == rows
                            && rows'[|rows|] == Row(asOf, base, quote, quantize(rate), Some(source))
                            && rows'[|rows| + 1] == Row(asOf, quote, base, quantize(1.0 / rate), Some(source)))
  {
    var forward := Row(asOf, base, quote, rate, Some(source));
    var inverse := Row(asOf, quote, base, 1.0 / rate, Some(source));
    if exists x :: x in rows && Key(x) == (asOf, base, quote) {
      var x :| x in rows && Key(x) == (asOf, base, quote);
      var i :| 0 <= i < |rows| && rows[i] == x;
      assert Key(rows[i]) == Key(forward);
    }
    if exists x :: x in rows && Key(x) == (asOf, quote, base) {
      var x :| x in rows && Key(x) == (asOf, quote, base);
      var i :| 0 <= i < |rows| && rows[i] == x;
      assert Key(rows[i]) == Key(inverse);
    }
  }

  /** `create_rate` for each parameter in turn; the first error stops the rest, earlier rows stay. */
  datatype CreateParams = CreateParams(asOf: Day, base: string, quote: string, rate: real, source: string)

  /** Rows created before a later outcome: prefixed to its rows on success, dropped on error. */
  function Prepend(created: seq<Row>, later: (Result<seq<Row>, CreateError>, seq<Row>)): (Result<seq<Row>, CreateError>, seq<Row>) {
    (if later.0.Ok? then Ok(created + later.0.value) else later.0, later.1)
  }

  function CreateAll(rows: seq<Row>, quantize: real -> real, ps: seq<CreateParams>): (r: (Result<seq<Row>, CreateError>, seq<Row>))
    ensures UniqueTriples(rows) ==> UniqueTriples(r.1)
    ensures |rows| <= |r.1| && r.1[..|rows|] == rows
    decreases |ps|
  {
    if ps == [] then (Ok([]), rows)
    else
      var p := ps[0];
      var (first, rows1) := Create(rows, quantize, p.asOf, p.base, p.quote, p.rate, p.source);
      CreatePreservesUniqueness(rows, quantize, p.asOf, p.base, p.quote, p.rate, p.source);
      match first
      case Err(e) => (Err(e), rows1)
      case Ok(created) =>
        Prepend(created, CreateAll(rows1, quantize, ps[1..]))
  }

  lemma CreateAllUnfold(rows: seq<Row>, quantize: real -> real, ps: seq<CreateParams>)
    requires ps != []
    ensures var c := Create(rows, quantize, ps[0].asOf, ps[0].base, ps[0].quote, ps[0].rate, ps[0].source);
            CreateAll(rows, quantize, ps) == if c.0.Err? then c else Prepend(c.0.value, CreateAll(c.1, quantize, ps[1..]))
  {
  }

  lemma PrependPrepend(a: seq<Row>, b: seq<Row>, later: (Result<seq<Row>, CreateError>, seq<Row>))
    ensures Prepend(a, Prepend(b, later)) == Prepend(a + b, later)
  {
    if later.0.Ok? { assert a + (b + later.0.value) == (a + b) + later.0.value; }
  }

  /** The table as one object, with `create_rate` changing it in place. */
  class Store {
    var rows: seq<Row>
    const quantize: real -> real

    ghost predicate Valid()
      reads this
    {
      UniqueTriples(rows)
    }

    constructor (quantize: real -> real)
      ensures Valid() && rows == [] && this.quantize == quantize
    {
      rows := [];
      this.quantize := quantize;
    }

    method CreateRate(asOf: Day, base: string, quote: string, rate: real, source: string)
      returns (r: Result<seq<Row>, CreateError>)
      requires Valid()
      modifies this
      ensures Valid()
      ensures (r, rows) == Create(old(rows), quantize, asOf, base, quote, rate, source)
    {
      if Same(base, quote) {
        return Ok([]);
      }
      if rate == 0.0 {
        return Err(DivisionByZero);
      }
      var forward := Row(asOf, base, quote, rate, Some(source));
      var inverse := Row(asOf, quote, base, 1.0 / rate, Some(source));
      if Conflicts(rows, forward) || Conflicts(rows, inverse) {
        return Err(InsertFailed(base, quote, asOf));
      }
      CreatePreservesUniqueness(rows, quantize, asOf, base, quote, rate, source);
      rows := rows + [forward.(rate := quantize(rate)), inverse.(rate := quantize(1.0 / rate))];
      return Ok([forward, inverse]);
    }

    /** `bulk_create_rates(params)`: `create_rate` for each entry, stopping at the first error. */
    method BulkCreateRates(ps: seq<CreateParams>) returns (r: Result<seq<Row>, CreateError>)
      requires Valid()
      modifies this
      ensures Valid()
      ensures (r, rows) == CreateAll(old(rows), quantize, ps)
    {
      var created: seq<Row> := [];
      var k := 0;
      assert ps[k..] == ps;
      var all := CreateAll(rows, quantize, ps);
      if all.0.Ok? { assert [] + all.0.value == all.0.value; }
      while k < |ps|
        invariant 0 <= k <= |ps|
        invariant Valid()
        invariant CreateAll(old(rows), quantize, ps) == Prepend(created, CreateAll(rows, quantize, ps[k..]))
      {
        var p := ps[k];
        assert ps[k..][1..] == ps[k + 1..];
        ghost var before := rows;
        var one := CreateRate(p.asOf, p.base, p.quote, p.rate, p.source);
        CreateAllUnfold(before, quantize, ps[k..]);
        if one.Err? {
          return one;
        }
        PrependPrepend(created, one.value, CreateAll(rows, quantize, ps[k + 1..]));
        created := created + one.value;
        k := k + 1;
      }
      assert ps[k..] == [];
      assert created + [] == created;
      return Ok(created);
    }
  }
}
