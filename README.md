# Exchange House, modelled in Dafny

Exchange House serves currency exchange rates. A Python backend keeps a
table of daily rates (one row per date, base currency and quote currency)
and answers four queries over it: the dates with rates, the currency
pairs, the latest rate of a pair on or before a date, and a paginated
historical series. A scheduled refresh job finds the days of its window
with no stored rates. For each one it fetches the USD-based snapshot from
the Open Exchange Rates API and stores every rate together with its
inverse. It then pings a health-check URL and can e-mail a summary. A
React web dashboard reads the API. It fetches the historical series page
by page, converts the snake_case JSON keys to camelCase, lets the user
pick a currency pair, and shows how much a rate has changed. A React
Native app works offline from currency and rate tables bundled with it,
and makes no HTTP call.

This project restates that core in Dafny and proves properties of it. All
files are verified together. There is one module per source file, named
after the concept it models:

- `CurrencyCode`, `CurrencyMetadata`, `AvailableDate`, `TaskResult`: the backend's value types. `ResponseSchema` is the response body of the rate endpoints, with its positive-rate check.
- `RateStore`: the rates table and the service that queries it and adds rows. `LegacyService` is the earlier read-only service: it lists dates in an unspecified order.
- `MockService`: the in-memory service double the API tests run against.
- `OpenExchangeRates`, `Healthchecks`: the two HTTP clients. The HTTP exchange is a function given as a parameter.
- `Refresh`: the orchestrator. It computes the missing dates, then fetches and stores them day by day, stopping at the first error.
- `Scheduler`, `Jobs`, `Notifications`: the per-job statistics, the two scheduled tasks and the summary e-mail.
- `Transactions`: the decorator that either joins the caller's transaction or opens a new atomic one.
- `HistoricalHandler`, `LatestHandler`, `LegacyHistoricalRoute`: the HTTP endpoints, with their validation rules and page arithmetic.
- `ChangeCard`, `PairSelection`, `FrontendPaging`, `ApiClient`: the web client.
- `NumberFormat`, `MobileCurrency`, `MobileExchangeRate`, `MobileCurrencyService`, `StorageProvider`: the mobile app.
- `Common`, `Dates`, `Json`, `Sorting`: shared definitions. They cover options and results, day numbers and ISO 8601 dates, JSON values, and sorted duplicate-free sequences.

Modelling conventions:

- A date is a day number, with day 0 at 1970-01-01. `Dates` converts between day numbers and calendar dates and renders "YYYY-MM-DD".
- Everything the code reads from outside is a parameter:
  - the clock (`today`, `now`);
  - the HTTP responses;
  - the ISO 4217 code list and the bundled currency tables;
  - the database's 8-digit rounding;
  - storage failures;
  - the `toFixed` and parsing functions of the JavaScript clients.
- Decimal and Big.js numbers are exact reals.
- Code that changes state step by step is written as classes and methods, each proved against a pure function of the old state:
  - the metrics dictionary;
  - the store's bulk insert;
  - the refresh loop;
  - the transaction buffer;
  - the pair-selection state;
  - the paging loop;
  - the storage provider.
- Queries and formatting are functions with lemmas.

## Model

| member | source | states |
|---|---|---|
| CurrencyCode.IsoCode | app/models/currency.py:20-22 | `iso_code` is the code with every lower-case ASCII letter upper-cased and every other character kept, same length |
| CurrencyCode.SameIffUpperEqual | app/models/currency.py:8-10 | two `Currency` values are equal exactly when their upper-cased codes are; the relation is symmetric and reflexive |
| CurrencyCode.SameTransitive | app/models/currency.py:8-10 | `Currency` equality is transitive |
| CurrencyCode.PlainStringComparison | app/models/currency.py:15-16 | against a plain `str` only the `Currency` side is upper-cased: equal iff `upper(code) == s`, so a matching string has no lower-case letters |
| CurrencyCode.UsdCasings | app/models/currency.py:8-18 | "usd" and "uSd" equal the string "USD"; "USD" does not equal the string "usd"; a base-class value "Usd" equals "USD"; `Currency("USD") != Currency("JPY")` |
| CurrencyCode.ValidityIgnoresCase | app/models/currency.py:5-6 | `is_valid` gives the same answer for any two codes that are equal as currencies |
| CurrencyMetadata.StrField | app/models/currency_metadata.py:26-28 | a string field is read iff the key is present with a string value; a missing key is a `KeyError` naming it |
| CurrencyMetadata.DecimalsField | app/models/currency_metadata.py:15-29 | a missing "decimals" gives 2, an explicit `None` stays `None`, an integer is kept; a string validates iff it is a non-empty string of digits, and then gives the number it spells |
| CurrencyMetadata.DecimalsStringReadBack | app/models/currency_metadata.py:15-29 | decimals written as the decimal string of any count validate back to that count |
| CurrencyMetadata.FromDict | app/models/currency_metadata.py:22-30 | `from_dict` succeeds iff name, symbol and flag are strings and decimals, when it is a string, is a string of digits; the fields are copied and a missing decimals becomes 2; a missing name is a `KeyError` |
| CurrencyMetadata.ToDict | app/models/currency_metadata.py:32-38 | `to_dict` has exactly the four keys, holding the record's name, symbol, flag and decimals (`None` when absent) |
| CurrencyMetadata.FromToDict | app/models/currency_metadata.py:22-38 | `from_dict(iso, to_dict(m)) == m` for every record |
| CurrencyMetadata.ToFromDict | app/models/currency_metadata.py:22-38 | a dictionary with exactly the four keys that `from_dict` accepts comes back from `to_dict` unchanged, except that decimals given as a string of digits come back as that number |
| CurrencyMetadata.MissingDecimalsIsFilledIn | app/models/currency_metadata.py:5-37 | a dictionary without "decimals" comes back with "decimals" = 2 and otherwise unchanged |
| AvailableDate.Validate | app/models/available_date.py:13-21 | a non-date is a `TypeError`; a date after today is the "date_not_in_past_or_today" error; any other date is returned unchanged |
| AvailableDate.AcceptedIffNotAfterToday | app/models/available_date.py:18-21 | a date is accepted iff it is not later than today |
| AvailableDate.ValidateIdempotent | app/models/available_date.py:14-21 | validating an accepted value again accepts it again with the same result |
| TaskResult.SuccessResult | app/tasks/task_result.py:9-11 | status "SUCCESS" with the given message |
| TaskResult.WarningResult | app/tasks/task_result.py:14-16 | status "WARNING" with the message |
| TaskResult.FailureResult | app/tasks/task_result.py:19-21 | status "FAILURE" with the message |
| TaskResult.SkippedResult | app/tasks/task_result.py:24-26 | status "SKIPPED" with the message |
| TaskResult.LabelsAreDistinct | app/tasks/task_result.py:5 | the four status literals are pairwise distinct: equal labels mean equal statuses |
| TaskResult.SuccessDefaultHasNoMessage | app/tasks/task_result.py:9-11 | without an argument the success result's message is `None` |
| Healthchecks.Ping | app/integrations/healthchecks.py:8-23 | a URL without the ping prefix raises "Invalid healthcheck URL" and sends nothing; otherwise exactly one GET of that URL; the ping succeeds iff the response status is below 400; a status from 400 up and a transport error each raise "Heartbeat check-in failed" with the code or the error |
| Healthchecks.ValidateUrlExamples | app/integrations/healthchecks.py:6-10 | a URL under `http://healthchecks.home/ping` is accepted; an https one and an unrelated host are not |
| Healthchecks.ServerErrorIsReported | app/integrations/healthchecks.py:20-21 | a 500 response raises "Heartbeat check-in failed: 500" |
| OpenExchangeRates.RequestFor | app/integrations/open_exchange_rates.py:53-55 | the request URL is the base URL, "/", then the path; the only query parameter is `app_id` holding the key |
| OpenExchangeRates.Classify | app/integrations/open_exchange_rates.py:57-67 | a 2xx JSON body is returned as is and nothing else succeeds; 404 and 405 are the not-found error carrying the path and body text; statuses outside 2xx other than 400, 403, 404 and 405 are status errors; a 403 authentication error carries the body's description |
| OpenExchangeRates.GetPath | app/integrations/open_exchange_rates.py:51-67 | `get(path)` sends exactly `RequestFor(path, key)` and classifies the response it gets |
| OpenExchangeRates.RatesMember | app/integrations/open_exchange_rates.py:29-34 | `rates` decodes exactly when the body's `rates` member is an object whose members are all numbers; its codes are then distinct and each maps to the number the object gives that code |
| OpenExchangeRates.ValidateHistorical | app/integrations/open_exchange_rates.py:29-49 | a body that is not an object fails validation; an object is accepted exactly when `disclaimer`, `license` and `base` are strings, `timestamp` is a whole number and `rates` decodes, and the accepted response carries those five values unchanged |
| OpenExchangeRates.HistoricalRatesFor | app/integrations/open_exchange_rates.py:46-49 | `historical_rates_for(d)` requests `historical/YYYY-MM-DD.json` with the key; a 2xx JSON answer is validated; a non-2xx answer is an error |
| OpenExchangeRates.HistoricalPathOfEpoch | app/integrations/open_exchange_rates.py:47 | the path for day 0 is `historical/1970-01-01.json` |
| OpenExchangeRates.UnauthorizedAndRateLimitedAreStatusErrors | app/integrations/open_exchange_rates.py:57-66 | 401 and 429 have no branch of their own and are plain status errors |
| OpenExchangeRates.ForbiddenCarriesDescription | app/integrations/open_exchange_rates.py:57-59 | a 403 whose body has a description raises the authentication error with that description |
| Scheduler.StartJob | app/core/scheduler.py:24-27 | `record_job_start` adds the job when missing and keeps every started job started |
| Scheduler.StartKeepsOtherFields | app/core/scheduler.py:24-27 | the start time becomes now; the job's other fields are kept, and a new job has only a start time |
| Scheduler.EndJob | app/core/scheduler.py:29-39 | `record_job_end` keeps the set of jobs, and every job stays started |
| Scheduler.EndCounts | app/core/scheduler.py:29-39 | for a known job: end time now, duration end − start, success as given, runs + 1, failures + 1 on failure and unchanged (0 when unset) on success |
| Scheduler.FailJob | app/core/scheduler.py:41-44 | `record_job_failure` keeps the set of jobs and keeps started jobs started |
| Scheduler.FailureCounts | app/core/scheduler.py:41-44 | for a known job it adds one failure and changes nothing else, runs included |
| Scheduler.UnknownJobIsIgnored | app/core/scheduler.py:29-42 | ending or failing a job that never started changes nothing |
| Scheduler.OtherJobsUntouched | app/core/scheduler.py:24-44 | starting, ending or failing one job leaves every other job's stats unchanged |
| Scheduler.Replay | app/core/scheduler.py:29-57 | a sequence of listener events keeps the set of jobs and keeps them started |
| Scheduler.ReplayCounts | app/core/scheduler.py:29-57 | after a sequence of events, a job's runs grew by the number of its events and its failures by the number of those that carried an exception |
| Scheduler.JobMetrics.constructor | app/core/scheduler.py:21-22 | a new metrics object has no job stats |
| Scheduler.JobMetrics.RecordJobStart | app/core/scheduler.py:24-27 | the stats become `StartJob` of the old stats |
| Scheduler.JobMetrics.RecordJobEnd | app/core/scheduler.py:29-39 | the stats become `EndJob` of the old stats |
| Scheduler.JobMetrics.RecordJobFailure | app/core/scheduler.py:41-44 | the stats become `FailJob` of the old stats |
| Scheduler.JobMetrics.JobListener | app/core/scheduler.py:51-57 | an event with an exception ends the job as failed and logs "Job X failed: E"; otherwise it ends it as successful and logs "Job X completed successfully" |
| Jobs.PingAndLog | app/tasks/jobs.py:17-43 | the job sends exactly the ping's requests and raises the ping's error; the completion line is logged only when the ping succeeded |
| Jobs.AtMostOnePing | app/tasks/jobs.py:9-43 | each task sends at most one request, only to its configured URL and only when that URL is set and valid; an error is raised only after the URL was found set, and for the refresh task only when the refresh succeeded |
| Jobs.EarlyStops | app/tasks/jobs.py:13-38 | an unset heartbeat URL logs one warning and sends nothing; a failed refresh logs "Exchange rate refresh failed: …" and stops; an unset refresh URL after a successful refresh logs one warning and stops |
| Jobs.HealthyPingCompletes | app/tasks/jobs.py:17-43 | with a set, valid URL answering below 400, each task sends one request and logs its completion line |
| Jobs.HeartbeatTask | app/tasks/jobs.py:9-20 | records the start of "heartbeat" and then runs as `Heartbeat` says |
| Jobs.LatestExchangeRatesTask | app/tasks/jobs.py:23-43 | records the start of "exchange_rate_notification" and then runs as `LatestRates` says; a failed refresh records no failure |
| Notifications.Change | app/tasks/notifications.py:30 | the change c satisfies latest = previous · (1 + c) |
| Notifications.ChangeExample | app/tasks/notifications.py:30-35 | from 0.72 to 0.75 the change is 1/24, so it prints as 4.17% |
| Notifications.SendRefreshEmail | app/tasks/notifications.py:9-39 | no admin email: one warning and no query; otherwise exactly one query (SGD/USD, limit 2, descending); fewer than two rows: the "Not enough exchange rates" warning; two rows: one mail to the admin, its subject naming the latest date and its change computed from the two rates |
| Notifications.Answered | app/tasks/notifications.py:16-39 | once the admin address is known: one query; fewer than two rows is the "Not enough exchange rates found" warning; two rows with a non-zero previous rate send a mail to the admin with the newest row's date in the subject, both rows and their change |
| Notifications.StoreAnswer | app/tasks/notifications.py:16-21 | the store answers the limit-2 query with at most two rows |
| Notifications.AgainstTheStore | app/tasks/notifications.py:16-30 | answered by the rate store, a mail compares the newest SGD/USD row with the one before it; both rows are in the store |
| RateStore.AvailableDates | app/services/exchange_rate_service.py:44-46 | the available dates are strictly ascending and are exactly the dates stored |
| RateStore.AvailableDatesDetermined | app/services/exchange_rate_service.py:44-46 | any strictly ascending list of the stored dates is the answer, so it does not depend on the table's order |
| RateStore.AvailableDatesOnceEach | app/services/exchange_rate_service.py:44-46 | each stored date appears once, and a date appears iff some row carries it |
| RateStore.CurrencyPairs | app/services/exchange_rate_service.py:48-55 | the pairs are strictly ascending by base then quote and are exactly the stored pairs |
| RateStore.CurrencyPairsDetermined | app/services/exchange_rate_service.py:48-55 | any strictly ascending list of the stored pairs is the answer |
| RateStore.PairLtIsStrictTotalOrder | app/services/exchange_rate_service.py:52 | ordering by base, then quote, is a strict total order |
| RateStore.LatestOf | app/services/exchange_rate_service.py:71-79 | none exactly when no row of the pair is dated on or before the day; otherwise a stored row of the pair, on or before the day, with no later such row |
| RateStore.LatestRate | app/services/exchange_rate_service.py:57-81 | `as_of` defaults to today; equal currencies give an unsaved row at rate 1 on that day; otherwise the latest row of the pair on or before it |
| RateStore.LatestIsDetermined | app/services/exchange_rate_service.py:71-79 | with unique (as_of, base, quote), the latest candidate row is the answer whatever the table's order |
| RateStore.Window | app/services/exchange_rate_service.py:104-110 | the filter keeps exactly the stored rows of the pair with start ≤ as_of ≤ end and keeps the unique constraint |
| RateStore.Defaults | app/services/exchange_rate_service.py:92-99 | end defaults to today, start to end − 3652 days, limit to 1000 |
| RateStore.HistoricalDefaults | app/services/exchange_rate_service.py:8-99 | with nothing given, the window is (today − 3652, today) and the limit 1000 |
| RateStore.HistoricalRates | app/services/exchange_rate_service.py:83-118 | an error iff the start is after the end, with the "start_date must be before or equal to today" message; otherwise min(window size, `limit`) stored rows of the pair inside the window, sorted by date in the requested direction |
| RateStore.HistoricalRatesFirstOfWindow | app/services/exchange_rate_service.py:104-113 | the rows returned are the first `limit` of the window in the requested direction: every window row left out comes after every row returned; all of them are returned when the window holds at most `limit`, and exactly `limit` when it holds more |
| RateStore.TakeKeepsFirst | app/services/exchange_rate_service.py:111-112 | LIMIT keeps a sorted prefix, and whatever it drops comes after everything it keeps |
| RateStore.HistoricalRejectsInvertedRange | app/services/exchange_rate_service.py:101-102 | a start after the end is refused whatever the table holds |
| RateStore.Create | app/services/exchange_rate_service.py:120-148 | `create_rate` only ever appends to the table |
| RateStore.CreateSameCurrency | app/services/exchange_rate_service.py:123-124 | equal currencies return [] and write nothing |
| RateStore.CreateOutcomes | app/services/exchange_rate_service.py:126-148 | on success the table gains exactly the forward row and the inverse row at 1/rate, both dated `as_of` with the source, and these two are returned; the insert fails, with the "Failed to create exchange rate" error and the table unchanged, exactly when one of the two triples is already stored |
| RateStore.CreatePreservesUniqueness | app/services/exchange_rate_service.py:141-146 | the unique (as_of, base, quote) constraint holds after `create_rate` |
| RateStore.CreateAll | app/services/exchange_rate_refresh.py:59-70 | a bulk create keeps the unique constraint and only appends |
| RateStore.Store.constructor | app/services/exchange_rate_service.py:43 | a new store is empty |
| RateStore.Store.CreateRate | app/services/exchange_rate_service.py:120-148 | result and new rows are `Create` of the old rows |
| RateStore.Store.BulkCreateRates | app/services/exchange_rate_refresh.py:70 | result and new rows are `CreateAll` of the old rows: `create_rate` per entry, stopping at the first error |
| LegacyService.Distinct | app/models/exchange_rate_service.py:9-11 | the distinct values are exactly the input's values, each once |
| LegacyService.LegacyAvailableDates | app/models/exchange_rate_service.py:9-11 | the earlier `get_available_dates` returns each stored date once, in no promised order |
| LegacyService.LegacyDatesAreCurrentUnordered | app/models/exchange_rate_service.py:9-11 | any order the database returns has the current service's dates and as many; if it happens to be ascending it is the current answer |
| MockService.MockAvailableDates | backend/tests/support/mock_exchange_rate_service.py:11-12 | 2025-04-01, 2025-04-02 and 2025-04-03 |
| MockService.MockAvailableDatesConsecutive | backend/tests/support/mock_exchange_rate_service.py:11-12 | the three dates are consecutive days, ascending |
| MockService.MockCurrencyPairs | backend/tests/support/mock_exchange_rate_service.py:14-24 | eight pairs |
| MockService.MockCurrencyPairsOrdered | backend/tests/support/mock_exchange_rate_service.py:14-24 | the pairs are sorted as the real service sorts them, each involves USD, and each pair's inverse is present too |
| MockService.MockLatestRate | backend/tests/support/mock_exchange_rate_service.py:26-54 | a rate exactly for equal currencies and for USD to EUR or GBP, dated `as_of` or today, with the pair asked for |
| MockService.MockLatestRates | backend/tests/support/mock_exchange_rate_service.py:32-54 | USD/EUR is 1.02, USD/GBP is 1.09, a same-currency rate is 1, EUR/USD is none |
| MockService.Fixture | backend/tests/support/mock_exchange_rate_service.py:66-115 | eight rows |
| MockService.FixtureAscending | backend/tests/support/mock_exchange_rate_service.py:66-115 | the fixture dates are strictly ascending |
| MockService.SliceIndex | backend/tests/support/mock_exchange_rate_service.py:125-128 | Python slice bounds: a negative index counts from the end, and both are clamped to the length |
| MockService.Bounded | backend/tests/support/mock_exchange_rate_service.py:118-122 | the date filters keep exactly the rows inside the given bounds |
| MockService.PageBounds | backend/tests/support/mock_exchange_rate_service.py:118-131 | every row returned is within the bounds; there are at most `limit` of them and no more than the filter leaves; ascending with a non-negative offset and limit, the page is exactly that slice |
| MockService.UnboundedPageIsFixture | backend/tests/support/mock_exchange_rate_service.py:116-133 | with no filters and ascending order the whole fixture is returned |
| MockService.MockHistoricalRates | backend/tests/support/mock_exchange_rate_service.py:56-133 | the total is always 8 and the rates are the filtered, sliced, optionally reversed fixture |
| MockService.HandlerOverMock | backend/tests/support/mock_exchange_rate_service.py:56-133 | the historical handler wired to the double: a request that passes the rules succeeds with total 8, pages = ⌈8 / size⌉, at most `size` entries, each dated inside the requested dates |
| Refresh.DefaultWindow | app/services/exchange_rate_refresh.py:34-35 | the start defaults to today − 8 and the end to today − 1 |
| Refresh.MissingDates | app/services/exchange_rate_refresh.py:72-87 | the dates to fetch are strictly ascending and are exactly the days of the window that are not stored |
| Refresh.MissingDatesIsSortedDifference | app/services/exchange_rate_refresh.py:86-87 | any ascending list of exactly those days is the answer |
| Refresh.NothingMissing | app/services/exchange_rate_refresh.py:81-87 | an empty window (end before start) or a fully stored one fetches nothing |
| Refresh.RatesParams | app/services/exchange_rate_refresh.py:59-69 | one create parameter per rate, in order: the day, USD as base, the rate's code as quote, its rate, source "openexchangerates.org" |
| Refresh.DayOutcome | app/services/exchange_rate_refresh.py:50-57 | a failed fetch is re-raised for that day with the table unchanged; otherwise the day's rates are bulk-created and a store error is raised for that day |
| Refresh.SaveAll | app/services/exchange_rate_refresh.py:48-57 | the loop keeps the unique constraint and only appends |
| Refresh.SaveAllStopsAtFirstError | app/services/exchange_rate_refresh.py:50-57 | the days fetched are a prefix of the dates, all of them on success; on an error the last day fetched is the one that failed and every earlier fetch succeeded |
| Refresh.CreateAllWrites | app/services/exchange_rate_refresh.py:59-70 | a successful bulk create adds two rows per entry with different currencies and never stores a same-currency row |
| Refresh.CreateWrites | app/services/exchange_rate_refresh.py:59-70 | one successful `create_rate` adds two rows for different currencies and none for a same-currency pair, and no row it adds pairs a currency with itself |
| Refresh.SaveAllWrites | app/services/exchange_rate_refresh.py:48-70 | a successful `save()` adds exactly two rows per non-USD rate of each fetched day, and no added row pairs a currency with itself |
| Refresh.UsdEntryWritesNothing | app/services/exchange_rate_refresh.py:59-70 | the USD entry of a day's rates writes nothing; every other entry writes two rows |
| Refresh.ExchangeRateRefresh.constructor | app/services/exchange_rate_refresh.py:21-37 | the window is `DefaultWindow` of the arguments |
| Refresh.ExchangeRateRefresh.Save | app/services/exchange_rate_refresh.py:39-57 | the result, the days fetched and the new rows are `SaveAll` over `_get_all_dates()` |
| Refresh.ExchangeRateRefresh.SaveDates | app/services/exchange_rate_refresh.py:50-57 | the loop over given dates matches `SaveAll` |
| Refresh.ExchangeRateRefresh.SaveDay | app/services/exchange_rate_refresh.py:51-57 | one iteration matches `DayOutcome` |
| HistoricalHandler.DateField | app/api/exchange_rates/historical_exchange_rates.py:18-33 | an absent date takes its default unvalidated; a value that is not a date gets the parser's "Input should be a valid date" error; a date is an `AvailableDate`: accepted unchanged iff not after today, otherwise "Date must be in the past or today" |
| HistoricalHandler.PageField | app/api/exchange_rates/historical_exchange_rates.py:26-34 | `page` is accepted iff absent or an integer ≥ 1, and defaults to 1 |
| HistoricalHandler.SizeField | app/api/exchange_rates/historical_exchange_rates.py:27-35 | `size` is accepted iff absent or an integer in 1..1000, and defaults to 1000; below 1 and above 1000 give their own messages |
| HistoricalHandler.OrderField | app/api/exchange_rates/historical_exchange_rates.py:36 | `order` is accepted iff absent or "asc" or "desc"; it is ascending only for "asc" |
| HistoricalHandler.ParseQuery | app/api/exchange_rates/historical_exchange_rates.py:18-36 | the query fails iff one of its five fields fails, listing one to five errors; parsed parameters satisfy the bounds, absent dates take today − 3652 and today, given dates are not after today |
| HistoricalHandler.PathErrors | app/models/currency.py:5-6 | the path codes are accepted iff both are valid ISO 4217 codes; every error carries the invalid-currency message |
| HistoricalHandler.FailingRules | app/api/exchange_rates/historical_exchange_rates.py:54-67 | each of the four rules fails iff its condition holds (no USD side; start after today; end after today; start after end), and the failing ones come in that order, each at most once |
| HistoricalHandler.MessagesDistinct | app/api/exchange_rates/historical_exchange_rates.py:57-67 | the four messages are pairwise different, so a message identifies its rule |
| HistoricalHandler.ValidationErrors | app/api/exchange_rates/historical_exchange_rates.py:54-67 | one message per failing rule, in the same order, and a rule's message is listed iff that rule failed |
| HistoricalHandler.SameTodayLeavesTwoRules | app/api/exchange_rates/historical_exchange_rates.py:18-67 | parsed with the handler's own today, only the USD rule and the start-after-end rule can fail |
| HistoricalHandler.Handle | app/api/exchange_rates/historical_exchange_rates.py:40-95 | a 422 iff some rule fails, with the messages joined by "; "; otherwise one service call with limit = size and offset = (page − 1)·size; a server error iff a returned row's rate is not positive; else a body with the codes, the rows' rate and date in order, total, page, size and pages = ⌈total / size⌉ |
| HistoricalHandler.UnexpectedKeyword | app/api/exchange_rates/historical_exchange_rates.py:75-83 | Python's keyword binding: no keyword is rejected iff every keyword is a declared parameter; one rejected is passed and not declared |
| HistoricalHandler.RealServiceRejectsOffset | app/services/exchange_rate_service.py:83-91 | the handler's call names `offset`, which the service's `get_historical_rates` does not declare; the test double declares every keyword of the call |
| HistoricalHandler.Offset | app/api/exchange_rates/historical_exchange_rates.py:52 | the offset of a page from 1 up is never negative, and page 1 starts at row 0 |
| HistoricalHandler.Pages | app/api/exchange_rates/historical_exchange_rates.py:94 | for a non-negative total the page count lies between 0 and the total |
| HistoricalHandler.PagesIsCeiling | app/api/exchange_rates/historical_exchange_rates.py:94 | `pages` is the ceiling of total / size: enough pages for every row and no empty last page; zero rows make zero pages |
| HistoricalHandler.OffsetsWithinTotal | app/api/exchange_rates/historical_exchange_rates.py:52-94 | a page's offset is non-negative and lies inside the total exactly for pages 1..pages |
| HistoricalHandler.PagesExamples | app/api/exchange_rates/historical_exchange_rates.py:94 | 8 rows in pages of 2 make 4 pages, of 1000 make 1; 0 rows make 0; 9 rows in pages of 2 make 5 |
| HistoricalHandler.NoUsdIsReportedFirst | app/api/exchange_rates/historical_exchange_rates.py:57-73 | without a USD side the request is a 422 whose detail starts with "At least one currency must be USD" |
| HistoricalHandler.StartAfterMockedToday | app/api/exchange_rates/historical_exchange_rates.py:46-73 | with the handler's clock at 2024-04-01, a start of 2024-04-02 and the default end report "start_date must be before or equal to today; start_date must be before or equal to end_date" |
| LatestHandler.ParseDesiredDate | backend/app/api/exchange_rates/latest_exchange_rate.py:15-20 | an absent date is today; a given one is accepted iff it is a date not after today, unchanged |
| LatestHandler.Handle | backend/app/api/exchange_rates/latest_exchange_rate.py:24-51 | a 422 iff neither side is USD; otherwise one lookup on the desired date: a 404 "No exchange rate found for B to Q on D" iff it finds nothing, a server error iff the row found has a rate that is not positive, else that row's pair, rate and date |
| LatestHandler.AgainstTheStore | backend/app/api/exchange_rates/latest_exchange_rate.py:30-51 | backed by the current service with no date given: a 404 iff the pair has no row on or before today; no server error when every stored rate is positive; the row returned is of that pair and not after today |
| ResponseSchema.DataFromRow | backend/app/schema/exchange_rate_response.py:9-18 | an entry is built iff the row's rate is positive, and carries the row's rate and date |
| ResponseSchema.LatestFromRow | backend/app/schema/exchange_rate_response.py:21-33 | the latest-rate body is built iff its entry is, with the row's codes |
| ResponseSchema.DataFromRows | app/api/exchange_rates/historical_exchange_rates.py:85 | the entries are built iff every row's rate is positive, one per row in order |
| LegacyHistoricalRoute.DaysBetween | app/api/historical_exchange_rates.py:62-65 | one day per step from start to end inclusive; none when end < start |
| LegacyHistoricalRoute.Defaults | app/api/historical_exchange_rates.py:13-25 | start defaults to today − 3652 and end to today |
| LegacyHistoricalRoute.Handle | app/api/historical_exchange_rates.py:37-66 | start after today, end after today and start after end are 400s, checked in that order; otherwise one entry per day of the window, every rate 1 and both codes as given |
| LegacyHistoricalRoute.EntriesAreConsecutive | app/api/historical_exchange_rates.py:55-66 | the entries start at the start, end at the end and go up one day at a time, covering every day exactly |
| LegacyHistoricalRoute.FirstFailureOnly | app/api/historical_exchange_rates.py:37-53 | only the first failing check is reported |
| LegacyHistoricalRoute.WindowLengths | app/api/historical_exchange_rates.py:62-65 | 2024-12-31 to 2025-04-01 is 92 entries; to 2025-03-15, 75 |
| LegacyHistoricalRoute.DefaultWindowLength | app/api/historical_exchange_rates.py:13-65 | with both dates defaulted there are 3653 entries, the last one today |
| Transactions.Run | backend/app/decorators/database_transactional.py:19-30 | running a decorated function only adds to the transaction's pending writes |
| Transactions.RunFromOutcome | backend/app/decorators/database_transactional.py:19-30 | a function returns iff none of its steps (its nested calls' steps included) raises; it then returns its own result and its writes are its steps' writes in order; a raise leaves the pending writes unchanged |
| Transactions.Alone | backend/app/decorators/database_transactional.py:23-30 | called without a connection, the function returns iff nothing in it raises, and then every write is committed; if anything raises nothing is committed |
| Transactions.ChildCommitsWithParent | backend/app/decorators/database_transactional.py:19-30 | a nested call joins its parent's transaction: the parent's and child's writes commit together, in order |
| Transactions.ParentFailureRollsBackChild | backend/app/decorators/database_transactional.py:19-30 | when the parent raises after the child returned, the child's write is rolled back too |
| Transactions.Database.constructor | backend/app/decorators/database_transactional.py:10-16 | a database with the given rows and no open transaction |
| Transactions.Database.Transactional | backend/app/decorators/database_transactional.py:19-30 | with a connection the function just runs inside the caller's transaction; without one it opens a transaction, commits what the run wrote when it returns, and discards it when it raises |
| Transactions.Database.RunScript | backend/app/decorators/database_transactional.py:22-28 | the function body runs step by step and matches `Run` |
| ChangeCard.RoundDiv | frontend/src/components/ChangeCard.tsx:41-49 | `Math.round(n / d)` on whole days: the nearest integer, halves rounded up |
| ChangeCard.SingularHeadlines | frontend/src/components/ChangeCard.tsx:29-55 | the headline is "vs. 1 week earlier" exactly for 7–10 days, "vs. 1 month earlier" for 30–44 days, "vs. 1 year earlier" for 365–547 days |
| ChangeCard.HeadlineExamples | frontend/src/components/ChangeCard.tsx:44-52 | 90 days is "vs. 3 months earlier"; 730 days is "vs. 2 years earlier" |
| ChangeCard.DaysTailDiffers | frontend/src/components/ChangeCard.tsx:38-39 | a day count never renders as one of the singular phrases |
| ChangeCard.PluralTailDiffers | frontend/src/components/ChangeCard.tsx:43-51 | a plural week, month or year phrase never renders as a singular one |
| ChangeCard.RelativeChangePercent | frontend/src/components/ChangeCard.tsx:116-119 | the percentage p satisfies current = previous · (1 + p/100) |
| ChangeCard.SignOfChange | frontend/src/components/ChangeCard.tsx:116-137 | with a positive earlier rate, the change is non-negative iff the rate did not fall |
| ChangeCard.ChangeDisplay | frontend/src/components/ChangeCard.tsx:121-123 | a positive change gets a leading "+"; zero and negative ones do not; both end in "%" |
| ChangeCard.SubtextCases | frontend/src/components/ChangeCard.tsx:125-135 | "No material change" iff \|p\| < 0.1; "X stronger by …" from 0.1 up, "X weaker by …" from −0.1 down; the "N/A" branch is unreachable |
| ChangeCard.Shade | frontend/src/components/ChangeCard.tsx:8-27 | the shade is one of 100, 200, …, 700 |
| ChangeCard.ShadeExtremes | frontend/src/components/ChangeCard.tsx:11-24 | a change of 5% or more either way gets shade 700; one within ±0.01% gets 100 |
| ChangeCard.ShadeMonotone | frontend/src/components/ChangeCard.tsx:8-27 | a change at least as large in either direction never gets a paler shade |
| ChangeCard.Render | frontend/src/components/ChangeCard.tsx:92-154 | no earlier rate: a gray card with the comparison-date headline, "N/A" and "No data available"; an earlier rate of 0 divides by zero; otherwise the headline between the two rates' dates, the change display and subtext, a green outline iff the change is ≥ 0, and the shade of that change |
| ChangeCard.GreenIffNotFallen | frontend/src/components/ChangeCard.tsx:116-137 | with a positive earlier rate, the outline is green iff the current rate is at least the earlier one |
| PairSelection.PrioritisedLtIsStrictTotalOrder | frontend/src/components/CurrencyPairSelection.tsx:31-35 | the comparator (the prioritised code first, then `localeCompare`) is a strict total order |
| PairSelection.CleanCurrencyList | frontend/src/components/CurrencyPairSelection.tsx:27-36 | the cleaned list holds exactly the input's codes and is strictly sorted by the comparator |
| PairSelection.CleanCurrencyListOrder | frontend/src/components/CurrencyPairSelection.tsx:27-36 | no duplicates; one entry per distinct code; the prioritised code first when present; every other code before the later ones in string order |
| PairSelection.CleanCurrencyListDetermined | frontend/src/components/CurrencyPairSelection.tsx:31-35 | any strictly sorted list of the same codes is the cleaned list, whatever the input order |
| PairSelection.BuildCurrencyOptions | frontend/src/components/CurrencyPairSelection.tsx:10-25 | one option per code, in order, with the code as value; a known code has its table icon and "CODE (Name)" as caption, an unknown one the empty icon and the bare code |
| PairSelection.QuotesOf | frontend/src/components/CurrencyPairSelection.tsx:64-68 | the quotes are exactly those paired with the base |
| PairSelection.BuildQuoteCurrencyOptions | frontend/src/components/CurrencyPairSelection.tsx:56-72 | no options without a base; otherwise the options of the cleaned list of the base's quotes |
| PairSelection.QuoteOptionsOffered | frontend/src/components/CurrencyPairSelection.tsx:56-72 | a quote is offered iff it is paired with the base; offers are distinct and there is one per distinct quote |
| PairSelection.AutoSelectedQuote | frontend/src/components/CurrencyPairSelection.tsx:98-104 | there is exactly one quote option, which `handleSelectBaseOption` then selects, iff the base has exactly one distinct quote |
| PairSelection.Submissions | frontend/src/components/CurrencyPairSelection.tsx:112-116 | the submit effect fires at most once per handler: iff the selected pair changed and both sides are set, and it submits that pair |
| PairSelection.Selection.constructor | frontend/src/components/CurrencyPairSelection.tsx:79-86 | the initial selection and the initial base's quote options; the first render submits the initial pair when both sides are set |
| PairSelection.Selection.SelectBase | frontend/src/components/CurrencyPairSelection.tsx:94-105 | the base becomes the choice, the quote options are rebuilt for it, the quote is the only option when there is one and cleared otherwise; the effect then runs |
| PairSelection.Selection.SelectQuote | frontend/src/components/CurrencyPairSelection.tsx:107-109 | only the quote changes; the effect then runs |
| PairSelection.Selection.Swap | frontend/src/components/CurrencyPairSelection.tsx:118-136 | with both sides set, base and quote trade places and the options are rebuilt for the new base, in one batched update; otherwise nothing changes |
| PairSelection.Selection.Effect | frontend/src/components/CurrencyPairSelection.tsx:112-116 | the effect only appends the submissions `Submissions` says |
| FrontendPaging.MapPage | frontend/src/services/exchangeRateService.ts:131-143 | each item's date and rate are parsed in order, and the page fields are copied |
| FrontendPaging.Loop | frontend/src/services/exchangeRateService.ts:94-104 | the i-th request asks for page `page + i` of the pair with order "asc"; no request once `page > totalPages`, at least one otherwise |
| FrontendPaging.LoopResult | frontend/src/services/exchangeRateService.ts:94-111 | on success the data are the fetched pages' data concatenated in page order, every request having succeeded; on failure the last request is the failing one, its error is the result, and all before it succeeded |
| FrontendPaging.ConstantPageCount | frontend/src/services/exchangeRateService.ts:94-104 | when every response reports `pages = p`, the loop from `page` makes no request if `page` is past the last reported count, and max(p, page) − page + 1 requests otherwise |
| FrontendPaging.FetchesPagesOneToMax | frontend/src/services/exchangeRateService.ts:90-104 | when every response reports `pages = p`, exactly pages 1..max(1, p) are requested, in order |
| FrontendPaging.GetHistoricalExchangeRates | frontend/src/services/exchangeRateService.ts:85-111 | the requests sent and the result are those of `Loop` from page 1 with one page expected; success returns the pair and all the data |
| ApiClient.ToCamelCase | frontend/src/integrations/exchangeHouseClient.ts:17-19 | never longer; empty iff the input is; an "_x" prefix with x lower-case becomes "X", any other first character is kept |
| ApiClient.NoSnakeUnchanged | frontend/src/integrations/exchangeHouseClient.ts:17-19 | a key with no "_" followed by a lower-case letter is unchanged |
| ApiClient.NoUnderscoreUnchanged | frontend/src/services/api.ts:18-20 | a key without "_" is unchanged |
| ApiClient.CamelCaseHasNoSnake | frontend/src/integrations/exchangeHouseClient.ts:17-19 | the result has no "_" followed by a lower-case letter |
| ApiClient.CamelCaseIdempotent | frontend/src/services/api.ts:18-20 | converting twice is converting once |
| ApiClient.CamelCaseExample | frontend/src/integrations/exchangeHouseClient.ts:17-19 | "base_currency_code" becomes "baseCurrencyCode" |
| ApiClient.SnakeStep | frontend/src/integrations/exchangeHouseClient.ts:18 | "_c" with c lower-case becomes C and the conversion goes on after it |
| ApiClient.CamelCaseOfPlainPrefix | frontend/src/integrations/exchangeHouseClient.ts:18 | a prefix without "_" is kept and the rest converted |
| ApiClient.ToCamelCaseKeys | frontend/src/integrations/exchangeHouseClient.ts:21-34 | arrays stay arrays with each item converted, objects stay objects, every other value is unchanged |
| Json.Get | frontend/src/integrations/exchangeHouseClient.ts:27-29 | reading a key finds a value iff some member has that key, and the value is one carried by such a member |
| Json.Assign | frontend/src/integrations/exchangeHouseClient.ts:27-29 | `acc[k] = v` keeps every member's key and position, replaces the value at `k`, appends `(k, v)` when `k` is new, and keeps keys unique |
| Json.GetAfterAssign | frontend/src/integrations/exchangeHouseClient.ts:27-29 | after `acc[k] = v`, reading `k` gives `v` and reading any other key gives what it gave before |
| Json.ToDictGet | frontend/src/integrations/exchangeHouseClient.ts:25-31 | assigning the members in turn into `{}` gives an object in which every key reads exactly what the member list reads for it |
| ApiClient.ConvertMembers | frontend/src/integrations/exchangeHouseClient.ts:25-31 | the `reduce` keeps the accumulator's keys unique |
| ApiClient.ConvertMembersGet | frontend/src/integrations/exchangeHouseClient.ts:25-31 | after the `reduce`, a camel key holds the converted value of the last original key converting to it, or the accumulator's value if none does |
| ApiClient.CamelCaseKeysOfObject | frontend/src/services/api.ts:22-36 | a converted object has unique keys, and each key holds the converted value of the last original key that converts to it; other keys are absent |
| ApiClient.LastConvertingToExists | frontend/src/integrations/exchangeHouseClient.ts:25-31 | some original key provides a camel key iff some key converts to it |
| ApiClient.Sanitize | frontend/src/integrations/exchangeHouseClient.ts:51-60 | the rejection value is a plain object: the body's truthy `message`, else the error's message, else the default; the status is the response's when truthy, else 500 |
| ApiClient.HandleError | frontend/src/integrations/exchangeHouseClient.ts:63-70 | an axios error gives the body's string message or the default; an `Error` gives its message; any other value gives the default |
| ApiClient.ServerMessageIsLost | frontend/src/integrations/exchangeHouseClient.ts:51-70 | for a `{"detail": …}` body axios's own message survives the interceptor, and a body's `message` does too, but `handleError` replaces either with the default |
| ApiClient.HandleErrorCorrected | frontend/src/integrations/exchangeHouseClient.ts:63-70 | agrees with `handleError` on every value except the sanitised object |
| ApiClient.CorrectedKeepsMessage | frontend/src/integrations/exchangeHouseClient.ts:51-70 | the corrected handler shows the server message, else the error's message, else the default |
| NumberFormat.Whole | mobile/utilities/number.ts:6 | the text before the first ".": all of it when there is none |
| NumberFormat.Fraction | mobile/utilities/number.ts:6-11 | present iff there is a "."; it is the text up to a second "." |
| NumberFormat.DigitsOf | mobile/utilities/number.ts:8 | only digits remain |
| NumberFormat.Formatted | mobile/utilities/number.ts:2-4 | the empty string formats as "0.00" |
| NumberFormat.GroupedShape | mobile/utilities/number.ts:15 | grouping adds ⌊(n − 1)/3⌋ commas; a comma sits exactly every fourth place from the right, never first or last |
| NumberFormat.UngroupedIsDigits | mobile/utilities/number.ts:15 | removing the commas gives back the digits |
| NumberFormat.UngroupedWhole | mobile/utilities/number.ts:8-15 | removing the commas from the formatted whole gives the digit-filtered whole |
| NumberFormat.FractionKept | mobile/utilities/number.ts:10-16 | with a ".", the result is the grouped whole, ".", and the fractional text verbatim, even when empty; text from a second "." on is dropped |
| NumberFormat.NoFraction | mobile/utilities/number.ts:15-16 | without a ".", the result is the grouped digits alone |
| NumberFormat.GroupingExample | mobile/utilities/number.ts:15 | "1234567890" becomes "1,234,567,890" |
| MobileCurrency.NewCurrency | mobile/models/Currency.ts:10-21 | the code is the argument; name, symbol and flag are the metadata's; decimal places are the metadata's when set, else 2 |
| MobileCurrency.GetCurrencies | mobile/models/Currency.ts:23-25 | one currency per table key, in key order |
| MobileCurrency.GetCurrency | mobile/models/Currency.ts:27-33 | null iff the code is not in the table, else that code's currency |
| MobileCurrency.ListedCurrenciesAreFound | mobile/models/Currency.ts:23-33 | every listed code is found by `getCurrency` and its currency is among `getCurrencies()` |
| MobileExchangeRate.NewExchangeRate | mobile/models/ExchangeRate.ts:14-24 | the rate's currencies have the entry's codes; rate and date are the entry's |
| MobileExchangeRate.GetExchangeRates | mobile/models/ExchangeRate.ts:26-30 | one rate per data entry, in order |
| MobileExchangeRate.FindFrom | mobile/models/ExchangeRate.ts:33-35 | `find`: the first matching index, or none when no rate matches |
| MobileExchangeRate.GetExchangeRate | mobile/models/ExchangeRate.ts:32-40 | null iff no entry has that base and quote; otherwise the rate of the first such entry |
| MobileExchangeRate.GetQuoteCurrencyCodes | mobile/models/ExchangeRate.ts:42-47 | the codes are exactly the quotes of the entries with that base, and there are no more of them than entries |
| MobileExchangeRate.QuoteCodesAreFilteredQuotes | mobile/models/ExchangeRate.ts:42-47 | the codes are the quotes of the entries with that base, one per entry, in data order |
| MobileExchangeRate.QuoteCodesInDataOrder | mobile/models/ExchangeRate.ts:42-47 | each code is read from an entry with that base, at ascending positions of the data |
| MobileExchangeRate.FormattedRateExamples | mobile/models/ExchangeRate.ts:49-51 | a rate whose `toFixed` gives "7.76" shows "7.76"; one giving "25957" shows "25,957" |
| MobileExchangeRate.FormattedDateExample | mobile/models/ExchangeRate.ts:53-55 | a rate dated 2025-05-01 shows "2025-05-01" |
| MobileCurrencyService.GetSelectableCurrencies | mobile/services/CurrencyService.ts:7-13 | every selectable currency is built from the bundled table's entry for its code, as `new Currency(code)` does |
| MobileCurrencyService.SelectableCurrencies | mobile/services/CurrencyService.ts:7-13 | every selectable currency is the quote of a USD-based rate; there are no more of them than rates; when every rate is USD-based they are all the rates' quote currencies, in rate order |
| MobileCurrencyService.SelectableInDataOrder | mobile/services/CurrencyService.ts:7-13 | each selectable currency is the quote of a rate, taken at ascending positions of the data |
| StorageProvider.Subscribed | mobile/hooks/StorageProvider.tsx:23-27 | `subscribe` appends the callback to the key's list and leaves every other key's list unchanged |
| StorageProvider.Unsubscribed | mobile/hooks/StorageProvider.tsx:30-34 | unsubscribing removes every occurrence of the callback from that key's list, keeps its other callbacks, and leaves other keys unchanged |
| StorageProvider.SubscribeThenUnsubscribe | mobile/hooks/StorageProvider.tsx:23-34 | a callback subscribed once is in the key's list exactly once; unsubscribing restores every key's list |
| StorageProvider.UnsubscribeKeepsOrder | mobile/hooks/StorageProvider.tsx:33 | removing the middle of three callbacks keeps the other two in order |
| StorageProvider.Provider.constructor | mobile/hooks/StorageProvider.tsx:5-6 | no items, no listeners, nothing called |
| StorageProvider.Provider.Subscribe | mobile/hooks/StorageProvider.tsx:23-27 | the listeners become `Subscribed` of the old ones; nothing else changes |
| StorageProvider.Provider.Unsubscribe | mobile/hooks/StorageProvider.tsx:30-34 | the listeners become `Unsubscribed` of the old ones; nothing else changes |
| StorageProvider.Provider.SetItem | mobile/hooks/StorageProvider.tsx:12-21 | a failed write propagates its error and calls nobody; otherwise the value is stored, then the key's callbacks are called once each, in subscription order, and no other callbacks run |
| StorageProvider.Provider.GetItem | mobile/hooks/StorageProvider.tsx:8-10 | the stored value or null when there is none; a failed read propagates its error |

## Left out

- Database plumbing is not modelled: the connection pools, retry loops, migrations and start-up checks. Savepoints of nested `atomic()` blocks are not modelled, and neither is a decorated function handed a connection that is not a transaction.
- The scheduler's file-lock leader election is not modelled: it is concurrency control between worker processes. The threads, background decorators and Celery wiring are left out for the same reason.
- I/O wrappers are not modelled: SMTP sending, Firestore, the currencies JSON loader and logging. A log line is kept only where it is the observable outcome (`Jobs`, `Notifications`), and the `exc_info` tracebacks are dropped.
- Notifications.SendRefreshEmail: the mail body's `:.4f`/`:.2%` renderings are not modelled; the body carries the figures themselves. More than two rows from the oracle is reported as `TooManyRows`, where Python's two-way unpacking raises.
- HistoricalHandler.Handle: the service is a function given as a parameter, answering with the page and the total. The service the application wires in cannot be called this way (see Findings), so the handler is proved for any service of that shape and, in `MockService.HandlerOverMock`, for the test double.
- ResponseSchema.LatestFromRow: the response re-validates the stored codes as `Currency` values. Stored codes are taken to be valid, so that check never fails in the model.
- OpenExchangeRates.ValidateHistorical: pydantic's lax coercions are not modelled. A numeric string or a boolean is not accepted as a rate, and a digit string or `true` is not accepted as the timestamp, where `model_validate` would coerce them. The upstream API sends these fields as plain JSON numbers.
- OpenExchangeRates.RatesMember: the rates are JSON numbers read as floats. The model keeps them as exact reals, so the binary rounding of a decimal such as 0.1 is not modelled.
- Refresh.RatesParams: `Decimal(rate)` converts the float exactly, so a stored rate is the float's binary expansion, and Decimal division rounds `1/rate` to 28 significant digits. The model stores the exact real and its exact inverse.
- CurrencyCode.IsoCode: upper-cases ASCII letters only. Python's `str.upper()` also maps other lower-case letters and can change the length ("ß" becomes "SS"). Valid codes are ASCII ISO 4217 codes, so no valid code is affected.
- CurrencyMetadata.DecimalsField: of pydantic's lax `int` parsing, only strings of decimal digits are modelled. Surrounding whitespace, a sign, underscores, a zero fraction such as "2.0", floats and booleans are not, because the dictionary values modelled are strings, integers and `None`.
- HistoricalHandler.DateField: a value the date parser rejects gets the opening words of pydantic's message. The reason pydantic appends, which depends on the input, is not modelled.
- The library `Currency` path type is not modelled: in particular, how it parses and upper-cases its value. A path code is valid iff it is in the allowed-code set passed as a parameter.
- RateStore.Store.BulkCreateRates: `bulk_create_rates` is not among the service files modelled. It is modelled as `create_rate` for each entry in turn, stopping at the first error and keeping what was already written.
- The older mock service that builds its rates from binary floats is left out, as are the test files themselves. Test expectations that the code does not implement are not modelled. In each case the code is modelled as written:
  - 401/429 handling;
  - an e-mail step in the jobs;
  - filtering of invalid pairs;
  - combined messages in the old route;
  - `getItem` returning null on a storage error;
  - lower-case string equality of `Currency`.
- Counts that depend on the shipped data are not restated: the 156 currencies and the 15 selectable rates.
- ChangeCard.Shade: computed with exact reals, not IEEE doubles, so the rounding of a value close to a shade boundary may differ. Big.js's 20-digit division and `toFixed(2)` are parameters or left exact.
- ChangeCard.Render: the JSX markup, styles and colour palette are left out. The card is described by its outline, title, change text and subtext.
- NumberFormat.Formatted: the `numeric` half of `parseTextAsNumber` is not modelled, because it is `parseFloat`.
- FrontendPaging.Loop: termination needs a bound on the page counts the server reports (`PagesBounded`). The JavaScript loop has no such bound.
- Rendering of the web and mobile UIs is not modelled: the dashboard, the charts, the forms, the modals and the theme.
- Object.keys ordering of integer-like keys is not modelled. Object members and table keys are taken in insertion order.
- PairSelection: the identity of React's `handleSubmit` dependency is not modelled, so the effect runs only when the selected pair changes. React's batching is taken to merge the updates of one handler into one render.
- ApiClient.HandleError: a `message` that is not a string shows the default text. JavaScript would show the value's string form.
- StorageProvider.Provider.Unsubscribe: requires the key to have a listener list. The unsubscribe function only exists after `subscribe` created that list, and no operation removes it. A stale closure over an older `listeners` value is not modelled, and neither is the asynchrony of `AsyncStorage`.
- OpenExchangeRates.RequestFor: the client constructor's check of the API key is left out. The key is a parameter of every request.

## Findings

| source | as written | input that shows it | evidently intended | confidence | as-written member | corrected member |
|---|---|---|---|---|---|---|
| frontend/src/integrations/exchangeHouseClient.ts:51-70 (copied in frontend/src/services/api.ts:51-67) | the response interceptor rejects with a plain `{ message, status }` object. `handleError` then finds neither an axios error nor an `Error`, and returns the default text | a 422 from this backend, whose body is `{"detail": "..."}`: the sanitised message is axios's own "Request failed with status code 422"; a body `{"message": "x"}` fares the same | `handleError` shows the sanitised message | not executed | ApiClient.ServerMessageIsLost | ApiClient.CorrectedKeepsMessage |
| app/api/exchange_rates/historical_exchange_rates.py:75-83 | the handler calls `get_historical_rates` with `offset=` and unpacks `(rates, total)`, but `ExchangeRateService.get_historical_rates` (app/services/exchange_rate_service.py:83-91) declares no `offset` and returns a plain list; only the test double fits the call | any request that passes the four rules, e.g. USD to EUR with no query parameters: the call raises `TypeError` | the service takes `offset` and returns the page with the total, as the double does | not executed | HistoricalHandler.RealServiceRejectsOffset | MockService.HandlerOverMock |
