/**
  The web client's historical-rates fetch (frontend/src/services/exchangeRateService.ts):
  the paging loop that requests page after page until it passes the page
  count of the latest response, and the per-page mapping of the raw items.
  The HTTP client is an oracle from request to page or thrown message;
  `new ProperDate(...)` and `Big(...)` are parsing parameters.
*/
module FrontendPaging {
  import opened Common
  import opened Dates

  /** One GET of `exchange_rates/{base}/{quote}/historical` with its query parameters. */
  datatype PageRequest = PageRequest(path: string, startDate: Option<Day>, page: int, order: string)

  datatype RawItem = RawItem(date: string, rate: string)
  datatype RawPage = RawPage(base: string, quote: string, data: seq<RawItem>, page: int, pages: int, total: int,
                             size: int)

  datatype ExchangeRate = ExchangeRate(date: Day, rate: real)
  datatype Page = Page(base: string, quote: string, data: seq<ExchangeRate>, page: int, pages: int, total: int,
                       size: int)
  datatype HistoricalRates = HistoricalRates(base: string, quote: string, data: seq<ExchangeRate>)

  /** The per-page fetch: what the server answered, or the message `handleError` made of the failure. */
  type Fetch = PageRequest -> Result<RawPage, string>

  datatype Parsers = Parsers(toDate: string -> Day, toRate: string -> real)

  function RequestFor(base: string, quote: string, startDate: Option<Day>, page: int): PageRequest {
    PageRequest("exchange_rates/" + base + "/" + quote + "/historical", startDate, page, "asc")
  }

  /** `_getHistoricalExchangeRates`: one page, its items mapped to (date, rate). */
  function MapPage(raw: RawPage, parse: Parsers): (r: Page)
    ensures |r.data| == |raw.data|
    ensures forall i :: 0 <= i < |raw.data| ==>
              r.data[i] == ExchangeRate(parse.toDate(raw.data[i].date), parse.toRate(raw.data[i].rate))
    ensures (r.base, r.quote, r.page, r.pages, r.total, r.size)
         == (raw.base, raw.quote, raw.page, raw.pages, raw.total, raw.size)
  {
    Page(raw.base, raw.quote, Map(raw.data, (i: RawItem) => ExchangeRate(parse.toDate(i.date), parse.toRate(i.rate))),
         raw.page, raw.pages, raw.total, raw.size)
  }

  /** Every page the server can answer reports at most `bound` pages; the loop needs this to end. */
  ghost predicate PagesBounded(fetch: Fetch, bound: int) {
    forall req :: fetch(req).Ok? ==> fetch(req).value.pages <= bound
  }

  /** The requests sent and what the loop produced, from `page` on with `totalPages` last reported. */
  datatype Trace = Trace(requests: seq<PageRequest>, result: Result<seq<ExchangeRate>, string>)

  function Loop(base: string, quote: string, startDate: Option<Day>, fetch: Fetch, parse: Parsers,
                page: int, totalPages: int, bound: int): (r: Trace)
    requires 1 <= page && totalPages <= bound && PagesBounded(fetch, bound)
    ensures forall i :: 0 <= i < |r.requests| ==> r.requests[i] == RequestFor(base, quote, startDate, page + i)
    ensures page > totalPages ==> r == Trace([], Ok([]))
    ensures page <= totalPages ==> 1 <= |r.requests|
    decreases bound - page + 1
  {
    if page > totalPages then Trace([], Ok([]))
    else
      var req := RequestFor(base, quote, startDate, page);
      match fetch(req)
      case Err(e) => Trace([req], Err(e))
      case Ok(raw) =>
        var rest := Loop(base, quote, startDate, fetch, parse, page + 1, raw.pages, bound);
        var data := MapPage(raw, parse).data;
        Trace([req] + rest.requests, if rest.result.Ok? then Ok(data + rest.result.value) else rest.result)
  }

  /** One step of `Loop`: the first request's answer decides whether the rest runs. */
  lemma LoopUnfold(base: string, quote: string, startDate: Option<Day>, fetch: Fetch, parse: Parsers,
                   page: int, totalPages: int, bound: int)
    requires 1 <= page <= totalPages <= bound && PagesBounded(fetch, bound)
    ensures var req := RequestFor(base, quote, startDate, page);
            Loop(base, quote, startDate, fetch, parse, page, totalPages, bound)
            == if fetch(req).Err? then Trace([req], Err(fetch(req).error))
               else
                 var rest := Loop(base, quote, startDate, fetch, parse, page + 1, fetch(req).value.pages, bound);
                 Trace([req] + rest.requests,
                       if rest.result.Ok? then Ok(MapPage(fetch(req).value, parse).data + rest.result.value)
                       else rest.result)
  {
  }

  /** The mapped data of the pages answered to `requests`, concatenated in request order. */
  function Concatenated(requests: seq<PageRequest>, fetch: Fetch, parse: Parsers): seq<ExchangeRate> {
    if requests == [] then []
    else
      var head := if fetch(requests[0]).Ok? then MapPage(fetch(requests[0]).value, parse).data else [];
      head + Concatenated(requests[1..], fetch, parse)
  }

  /**
    A loop that ends normally returns every fetched page's items, in page
    order; one that was stopped by a failure ends with the failed request
    and returns its message.
  */
  lemma {:induction false} LoopResult(base: string, quote: string, startDate: Option<Day>, fetch: Fetch,
                                      parse: Parsers, page: int, totalPages: int, bound: int)
    requires 1 <= page && totalPages <= bound && PagesBounded(fetch, bound)
    ensures var t := Loop(base, quote, startDate, fetch, parse, page, totalPages, bound);
            t.result.Ok? ==> t.result.value == Concatenated(t.requests, fetch, parse)
                             && forall r :: r in t.requests ==> fetch(r).Ok?
    ensures var t := Loop(base, quote, startDate, fetch, parse, page, totalPages, bound);
            t.result.Err? ==> t.requests != [] && fetch(t.requests[|t.requests| - 1]) == Err(t.result.error)
                              && forall i :: 0 <= i < |t.requests| - 1 ==> fetch(t.requests[i]).Ok?
    decreases bound - page + 1
  {
    if page <= totalPages {
      var req := RequestFor(base, quote, startDate, page);
      LoopUnfold(base, quote, startDate, fetch, parse, page, totalPages, bound);
      if fetch(req).Ok? {
        var raw := fetch(req).value;
        LoopResult(base, quote, startDate, fetch, parse, page + 1, raw.pages, bound);
        var t := Loop(base, quote, startDate, fetch, parse, page, totalPages, bound);
        var rest := Loop(base, quote, startDate, fetch, parse, page + 1, raw.pages, bound);
        assert t.requests == [req] + rest.requests;
        assert t.requests[1..] == rest.requests;
        if rest.result.Err? {
          assert t.requests[|t.requests| - 1] == rest.requests[|rest.requests| - 1];
          forall i | 0 <= i < |t.requests| - 1 ensures fetch(t.requests[i]).Ok? {
            if i > 0 { assert t.requests[i] == rest.requests[i - 1]; }
          }
        }
      }
    }
  }

  /**
    When every (successful) page reports the same count `p`, the loop
    requests exactly pages 1 to max(1, p), in order.
  */
  lemma {:induction false} ConstantPageCount(base: string, quote: string, startDate: Option<Day>, fetch: Fetch,
                                            parse: Parsers, p: int, page: int, totalPages: int)
    requires 1 <= page && (totalPages == p || (page == 1 && totalPages == 1))
    requires forall req :: fetch(req).Ok? && fetch(req).value.pages == p
    requires PagesBounded(fetch, if p < 1 then 1 else p)
    requires totalPages <= (if p < 1 then 1 else p)
    ensures var t := Loop(base, quote, startDate, fetch, parse, page, totalPages, if p < 1 then 1 else p);
            |t.requests| == (if page > totalPages then 0 else (if p > page - 1 then p else page) - page + 1)
    decreases (if p < 1 then 1 else p) - page + 1
  {
    if page <= totalPages {
      ConstantPageCount(base, quote, startDate, fetch, parse, p, page + 1, p);
    }
  }

  /** The top-level statement of the constant-count case: pages 1..max(1, p) and nothing else. */
  lemma FetchesPagesOneToMax(base: string, quote: string, startDate: Option<Day>, fetch: Fetch, parse: Parsers, p: int)
    requires forall req :: fetch(req).Ok? && fetch(req).value.pages == p
    ensures var bound := if p < 1 then 1 else p;
            PagesBounded(fetch, bound)
            && var t := Loop(base, quote, startDate, fetch, parse, 1, 1, bound);
               && |t.requests| == bound
               && forall i :: 0 <= i < bound ==> t.requests[i] == RequestFor(base, quote, startDate, i + 1)
  {
    ConstantPageCount(base, quote, startDate, fetch, parse, p, 1, 1);
  }

  /**
    `whole` is what the loop produces from page 1, once `requests` have been
    sent and `allData` collected, with `rest` still to run.
  */
  ghost predicate Resumes(whole: Trace, requests: seq<PageRequest>, allData: seq<ExchangeRate>, rest: Trace) {
    && whole.requests == requests + rest.requests
    && (whole.result.Ok? <==> rest.result.Ok?)
    && (rest.result.Ok? ==> whole.result.value == allData + rest.result.value)
    && (rest.result.Err? ==> whole.result == rest.result)
  }

  /** A page that was answered moves its request and its items from what is to run to what was done. */
  lemma ResumesAfterPage(base: string, quote: string, startDate: Option<Day>, fetch: Fetch, parse: Parsers,
                         page: int, totalPages: int, bound: int,
                         whole: Trace, requests: seq<PageRequest>, allData: seq<ExchangeRate>)
    requires 1 <= page <= totalPages <= bound && PagesBounded(fetch, bound)
    requires Resumes(whole, requests, allData, Loop(base, quote, startDate, fetch, parse, page, totalPages, bound))
    requires fetch(RequestFor(base, quote, startDate, page)).Ok?
    ensures var req := RequestFor(base, quote, startDate, page);
            var raw := fetch(req).value;
            && raw.pages <= bound && MapPage(raw, parse).pages == raw.pages
            && Resumes(whole, requests + [req], allData + MapPage(raw, parse).data,
                       Loop(base, quote, startDate, fetch, parse, page + 1, raw.pages, bound))
  {
    var req := RequestFor(base, quote, startDate, page);
    var raw := fetch(req).value;
    LoopUnfold(base, quote, startDate, fetch, parse, page, totalPages, bound);
    var rest := Loop(base, quote, startDate, fetch, parse, page + 1, raw.pages, bound);
    assert requests + ([req] + rest.requests) == (requests + [req]) + rest.requests;
    if rest.result.Ok? {
      var data := MapPage(raw, parse).data;
      assert allData + (data + rest.result.value) == (allData + data) + rest.result.value;
    }
  }

  /** Once the pages run out, what was done is the whole result. */
  lemma ResumesAtEnd(base: string, quote: string, startDate: Option<Day>, fetch: Fetch, parse: Parsers,
                     page: int, totalPages: int, bound: int,
                     whole: Trace, requests: seq<PageRequest>, allData: seq<ExchangeRate>)
    requires 1 <= page && totalPages < page && totalPages <= bound && PagesBounded(fetch, bound)
    requires Resumes(whole, requests, allData, Loop(base, quote, startDate, fetch, parse, page, totalPages, bound))
    ensures whole.requests == requests && whole.result == Ok(allData)
  {
    var done := Loop(base, quote, startDate, fetch, parse, page, totalPages, bound);
    assert done == Trace([], Ok([]));
    assert requests + done.requests == requests && allData + done.result.value == allData;
  }

  /** A page that failed is the last request, and its message is the loop's result. */
  lemma ResumesEndsAtFailure(base: string, quote: string, startDate: Option<Day>, fetch: Fetch, parse: Parsers,
                             page: int, totalPages: int, bound: int,
                             whole: Trace, requests: seq<PageRequest>, allData: seq<ExchangeRate>)
    requires 1 <= page <= totalPages <= bound && PagesBounded(fetch, bound)
    requires Resumes(whole, requests, allData, Loop(base, quote, startDate, fetch, parse, page, totalPages, bound))
    requires fetch(RequestFor(base, quote, startDate, page)).Err?
    ensures var req := RequestFor(base, quote, startDate, page);
            whole.requests == requests + [req] && whole.result == Err(fetch(req).error)
  {
    LoopUnfold(base, quote, startDate, fetch, parse, page, totalPages, bound);
  }

  /** `getHistoricalExchangeRates(baseCurrencyCode, quoteCurrencyCode, startDate)` */
  method GetHistoricalExchangeRates(base: string, quote: string, startDate: Option<Day>, fetch: Fetch,
                                    parse: Parsers, ghost bound: int)
    returns (requests: seq<PageRequest>, result: Result<HistoricalRates, string>)
    requires 1 <= bound && PagesBounded(fetch, bound)
    ensures var t := Loop(base, quote, startDate, fetch, parse, 1, 1, bound);
            && requests == t.requests
            && (result.Ok? <==> t.result.Ok?)
            && (result.Ok? ==> result.value == HistoricalRates(base, quote, t.result.value))
            && (result.Err? ==> result.error == t.result.error)
  {
    var page := 1;
    var totalPages := 1;
    var allData: seq<ExchangeRate> := [];
    requests := [];
    ghost var whole := Loop(base, quote, startDate, fetch, parse, 1, 1, bound);
    assert Resumes(whole, requests, allData, whole);
    while page <= totalPages
      invariant 1 <= page && totalPages <= bound
      invariant Resumes(whole, requests, allData, Loop(base, quote, startDate, fetch, parse, page, totalPages, bound))
      decreases bound - page + 1
    {
      var req := RequestFor(base, quote, startDate, page);
      var response := fetch(req);
      if response.Err? {
        ResumesEndsAtFailure(base, quote, startDate, fetch, parse, page, totalPages, bound, whole, requests, allData);
        requests := requests + [req];
        return requests, Err(response.error);
      }
      var mapped := MapPage(response.value, parse);
      ResumesAfterPage(base, quote, startDate, fetch, parse, page, totalPages, bound, whole, requests, allData);
      requests := requests + [req];
      allData := allData + mapped.data;
      totalPages := mapped.pages;
      page := page + 1;
    }
    ResumesAtEnd(base, quote, startDate, fetch, parse, page, totalPages, bound, whole, requests, allData);
    return requests, Ok(HistoricalRates(base, quote, allData));
  }
}
