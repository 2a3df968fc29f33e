/**
  The refresh e-mail (app/tasks/notifications.py). The service is an oracle
  from the query it is asked to the rows it answers; the mail itself is an
  output, described by its recipient, subject and the figures its body
  shows. Python's `f"{x:.4f}"` and `f"{x:.2%}"` renderings are left out of
  the body, which carries the values instead.
*/
module Notifications {
  import opened Common
  import opened Dates
  import opened RateStore

  const NoAdminEmail: string := "No admin email found"
  const NotEnoughRates: string := "Not enough exchange rates found"

  /** The one query the e-mail job sends: SGD to USD, newest two rows. */
  datatype RatesQuery = RatesQuery(base: string, quote: string, limit: nat, order: SortOrder)

  const LatestTwo := RatesQuery("SGD", "USD", 2, Desc)

  datatype Mail = Mail(recipient: string, subject: string, latest: Row, previous: Row, change: real)

  datatype Outcome =
    | Warned(message: string, queried: seq<RatesQuery>)
    | Sent(queried: seq<RatesQuery>, mail: Mail)
    | ChangeUndefined(queried: seq<RatesQuery>)   // the previous rate is 0: Decimal division fails
    | TooManyRows(queried: seq<RatesQuery>)       // more than two rows do not unpack into two names

  function Subject(asOf: Day): string {
    "[ExchangeHouse] Exchange rates for " + IsoDate(asOf)
  }

  /** The relative change between two rates, as a fraction of the earlier one. */
  function Change(latest: real, previous: real): (c: real)
    requires previous != 0.0
    ensures latest == previous * (1.0 + c)
  {
    (latest - previous) / previous
  }

  /** What the e-mail job does with the rows the service answered, once the address is known. */
  function Answered(adminEmail: string, rows: seq<Row>): (r: Outcome)
    ensures r.queried == [LatestTwo]
    ensures r.Warned? <==> |rows| < 2
    ensures r.Warned? ==> r.message == NotEnoughRates
    ensures r.Sent? <==> |rows| == 2 && rows[1].rate != 0.0
    ensures r.Sent? ==>
              && r.mail.recipient == adminEmail
              && r.mail.subject == Subject(rows[0].asOf)
              && r.mail.latest == rows[0] && r.mail.previous == rows[1]
              && r.mail.change == Change(rows[0].rate, rows[1].rate)
  {
    if |rows| < 2 then Warned(NotEnoughRates, [LatestTwo])
    else if |rows| > 2 then TooManyRows([LatestTwo])
    else if rows[1].rate == 0.0 then ChangeUndefined([LatestTwo])
    else
      var change := Change(rows[0].rate, rows[1].rate);
      Sent([LatestTwo], Mail(adminEmail, Subject(rows[0].asOf), rows[0], rows[1], change))
  }

  /** `send_exchange_rate_refresh_email()` with the admin address setting and the service's answer. */
  function SendRefreshEmail(adminEmail: Option<string>, service: RatesQuery -> seq<Row>): (r: Outcome)
    ensures (adminEmail.None? || adminEmail.value == "") <==> r == Warned(NoAdminEmail, [])
    ensures !(adminEmail.None? || adminEmail.value == "") ==> r.queried == [LatestTwo]
    ensures r.Warned? && r.message == NotEnoughRates <==>
              !(adminEmail.None? || adminEmail.value == "") && |service(LatestTwo)| < 2
    ensures r.Sent? <==>
              && !(adminEmail.None? || adminEmail.value == "")
              && |service(LatestTwo)| == 2 && service(LatestTwo)[1].rate != 0.0
    ensures r.Sent? ==>
              var rows := service(LatestTwo);
              && r.mail.recipient == adminEmail.value
              && r.mail.subject == Subject(rows[0].asOf)
              && r.mail.latest == rows[0] && r.mail.previous == rows[1]
              && r.mail.change == Change(rows[0].rate, rows[1].rate)
  {
    assert NoAdminEmail[2] != NotEnoughRates[2];
    if adminEmail.None? || adminEmail.value == "" then Warned(NoAdminEmail, [])
    else Answered(adminEmail.value, service(LatestTwo))
  }

  /** 0.75 against 0.72 is a rise of 1/24, which `.2%` shows as 4.17%. */
  lemma ChangeExample()
    ensures Change(0.75, 0.72) == 1.0 / 24.0
    ensures 4.165 <= 100.0 * Change(0.75, 0.72) < 4.175
  {
  }

  /**
    Answered from the store, the query gives the two newest SGD to USD rows
    of the last ten years, newest first: it never yields more than two rows,
    so the mail goes out whenever two such rows exist and the older rate is
    not 0, and the subject carries the newer row's date.
  */
  lemma AgainstTheStore(rows: seq<Row>, adminEmail: string, today: Day)
    requires UniqueTriples(rows) && adminEmail != ""
    ensures var service := (q: RatesQuery) => StoreAnswer(rows, q, today);
            var r := SendRefreshEmail(Some(adminEmail), service);
            && !r.TooManyRows?
            && (r.Sent? ==> r.mail.latest.asOf > r.mail.previous.asOf
                            && r.mail.latest in rows && r.mail.previous in rows
                            && r.mail.latest.base == "SGD" && r.mail.latest.quote == "USD"
                            && today - TenYears <= r.mail.previous.asOf && r.mail.latest.asOf <= today)
  {
    var service := (q: RatesQuery) => StoreAnswer(rows, q, today);
    var a := StoreAnswer(rows, LatestTwo, today);
    assert service(LatestTwo) == a;
    assert SendRefreshEmail(Some(adminEmail), service) == Answered(adminEmail, a);
    var q := Defaults(None, None, Some(2), today);
    assert q.start == today - TenYears && q.end == today;
    var h := HistoricalRates(rows, "SGD", "USD", None, None, Some(2), Desc, today);
    assert h.Ok? && a == h.value;
    if |a| == 2 {
      assert a[0] in a && a[1] in a;
      assert Before(a[0], a[1], Desc);
    }
  }

  /** The store's answer to a query with the default window, which always succeeds. */
  function StoreAnswer(rows: seq<Row>, q: RatesQuery, today: Day): (r: seq<Row>)
    requires UniqueTriples(rows)
    ensures |r| <= q.limit
  {
    HistoricalRates(rows, q.base, q.quote, None, None, Some(q.limit), q.order, today).value
  }
}
