/**
  The earlier, read-only copy of the service (app/models/exchange_rate_service.py).
  Its `get_currency_pairs` and `get_latest_rate` are the same queries as the
  current service's and are modelled once, in RateStore. What differs is
  `get_available_dates`: `SELECT DISTINCT as_of` with no ORDER BY, so the
  dates come back once each in an order the database chooses. The model
  picks the order of first appearance and proves that any other choice
  differs from it only by order.
*/
module LegacyService {
  import opened Dates
  import opened Sorting
  import opened RateStore

  /** The values of `xs`, each once, in the order they first appear. */
  function Distinct<T(==,!new)>(xs: seq<T>): (r: seq<T>)
    ensures Elems(r) == Elems(xs)
    ensures forall i, j :: 0 <= i < j < |r| ==> r[i] != r[j]
    decreases |xs|
  {
    if xs == [] then []
    else
      var init := Distinct(xs[..|xs| - 1]);
      var last := xs[|xs| - 1];
      assert xs == xs[..|xs| - 1] + [last];
      if last in init then init else init + [last]
  }

  /** `get_available_dates()` of the earlier service. */
  function LegacyAvailableDates(rows: seq<Row>): (r: seq<Day>)
    ensures Elems(r) == Elems(AsOfs(rows))
    ensures forall i, j :: 0 <= i < j < |r| ==> r[i] != r[j]
  {
    Distinct(AsOfs(rows))
  }

  /**
    Whatever order the database picks, the earlier service returns the same
    dates as the current one, as many of them, and the current one's list
    is the earlier one's sorted.
  */
  lemma LegacyDatesAreCurrentUnordered(rows: seq<Row>, s: seq<Day>)
    requires Elems(s) == Elems(AsOfs(rows))
    requires forall i, j :: 0 <= i < j < |s| ==> s[i] != s[j]
    ensures Elems(s) == Elems(AvailableDates(rows))
    ensures |s| == |AvailableDates(rows)|
    ensures StrictlySorted(s, DayLt) ==> s == AvailableDates(rows)
  {
    DayLtIsStrictTotalOrder();
    SortedHasNoDuplicates(AvailableDates(rows), DayLt);
    DistinctCard(s);
    DistinctCard(AvailableDates(rows));
    if StrictlySorted(s, DayLt) {
      AvailableDatesDetermined(rows, s);
    }
  }
}
