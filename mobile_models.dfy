/**
  The mobile app's currency table lookups (mobile/models/Currency.ts).
  `CURRENCIES` is a parameter: its keys in `Object.keys` order and the
  metadata for each. `CurrencyCode` is `keyof CURRENCIES`, so the
  constructor's callers pass a code of the table.
*/
module MobileCurrency {
  import opened Common
  import opened Sorting

  datatype Metadata = Metadata(name: string, symbol: string, flag: string, decimalPlaces: Option<int>)

  datatype Currencies = Currencies(keys: seq<string>, entries: map<string, Metadata>)

  ghost predicate WellFormed(t: Currencies) {
    Elems(t.keys) == t.entries.Keys && forall i, j :: 0 <= i < j < |t.keys| ==> t.keys[i] != t.keys[j]
  }

  datatype Currency = Currency(code: string, name: string, symbol: string, flag: string, decimalPlaces: int)

  /** `new Currency(iso_code)` */
  function NewCurrency(t: Currencies, code: string): (c: Currency)
    requires code in t.entries
    ensures c.code == code
    ensures (c.name, c.symbol, c.flag) == (t.entries[code].name, t.entries[code].symbol, t.entries[code].flag)
    ensures c.decimalPlaces == if t.entries[code].decimalPlaces.Some? then t.entries[code].decimalPlaces.value else 2
  {
    var m := t.entries[code];
    Currency(code, m.name, m.symbol, m.flag, if m.decimalPlaces.Some? then m.decimalPlaces.value else 2)
  }

  /** `Currency.getCurrencies()`: one currency per key, in key order. */
  function GetCurrencies(t: Currencies): (r: seq<Currency>)
    requires WellFormed(t)
    ensures |r| == |t.keys| && forall i :: 0 <= i < |r| ==> r[i] == NewCurrency(t, t.keys[i])
  {
    seq(|t.keys|, i requires 0 <= i < |t.keys| => assert t.keys[i] in Elems(t.keys); NewCurrency(t, t.keys[i]))
  }

  /** `Currency.getCurrency(code)`: `null` exactly for a code missing from the table. */
  function GetCurrency(t: Currencies, code: string): (r: Option<Currency>)
    ensures r.None? <==> code !in t.entries
    ensures r.Some? ==> r.value == NewCurrency(t, code)
  {
    if code !in t.entries then None else Some(NewCurrency(t, code))
  }

  /** Every code the table lists has its currency among `getCurrencies()`, and `getCurrency` finds it. */
  lemma ListedCurrenciesAreFound(t: Currencies, code: string)
    requires WellFormed(t) && code in t.keys
    ensures GetCurrency(t, code).Some? && GetCurrency(t, code).value in GetCurrencies(t)
  {
    var i :| 0 <= i < |t.keys| && t.keys[i] == code;
    assert GetCurrencies(t)[i] == NewCurrency(t, code);
  }
}

/**
  The bundled exchange-rate table of the mobile app (mobile/models/ExchangeRate.ts).
  The JSON data are a parameter; `Big(rate)` and `new ProperDate(date)` are
  taken as already parsed, and `toFixed` is a parameter.
*/
module MobileExchangeRate {
  import opened Common
  import opened Dates
  import opened MobileCurrency
  import NumberFormat

  datatype RateEntry = RateEntry(baseCurrencyCode: string, quoteCurrencyCode: string, rate: real, date: Day)

  datatype ExchangeRate = ExchangeRate(baseCurrency: Currency, quoteCurrency: Currency, rate: real, date: Day)

  /** Every code in the data is a `CurrencyCode`. */
  ghost predicate Typed(data: seq<RateEntry>, t: Currencies) {
    forall i :: 0 <= i < |data| ==> data[i].baseCurrencyCode in t.entries && data[i].quoteCurrencyCode in t.entries
  }

  function NewExchangeRate(t: Currencies, e: RateEntry): (r: ExchangeRate)
    requires e.baseCurrencyCode in t.entries && e.quoteCurrencyCode in t.entries
    ensures r.baseCurrency.code == e.baseCurrencyCode && r.quoteCurrency.code == e.quoteCurrencyCode
    ensures r.rate == e.rate && r.date == e.date
  {
    ExchangeRate(NewCurrency(t, e.baseCurrencyCode), NewCurrency(t, e.quoteCurrencyCode), e.rate, e.date)
  }

  /** `ExchangeRate.getExchangeRates()`: one rate per data entry, in order. */
  function GetExchangeRates(t: Currencies, data: seq<RateEntry>): (r: seq<ExchangeRate>)
    requires Typed(data, t)
    ensures |r| == |data| && forall i :: 0 <= i < |data| ==> r[i] == NewExchangeRate(t, data[i])
  {
    seq(|data|, i requires 0 <= i < |data| => NewExchangeRate(t, data[i]))
  }

  predicate Matches(r: ExchangeRate, base: string, quote: string) {
    r.baseCurrency.code == base && r.quoteCurrency.code == quote
  }

  /** The first index from `k` whose rate matches, if any: `Array.prototype.find`. */
  function FindFrom(rs: seq<ExchangeRate>, base: string, quote: string, k: nat): (r: Option<nat>)
    requires k <= |rs|
    ensures r.Some? ==> k <= r.value < |rs| && Matches(rs[r.value], base, quote)
                        && forall j :: k <= j < r.value ==> !Matches(rs[j], base, quote)
    ensures r.None? ==> forall j :: k <= j < |rs| ==> !Matches(rs[j], base, quote)
    decreases |rs| - k
  {
    if k == |rs| then None
    else if Matches(rs[k], base, quote) then Some(k)
    else FindFrom(rs, base, quote, k + 1)
  }

  /** `ExchangeRate.getExchangeRate(base, quote)`: the first matching entry, else `null`. */
  function GetExchangeRate(t: Currencies, data: seq<RateEntry>, base: string, quote: string): (r: Option<ExchangeRate>)
    requires Typed(data, t)
    ensures r.None? <==> forall i :: 0 <= i < |data| ==> !(data[i].baseCurrencyCode == base && data[i].quoteCurrencyCode == quote)
    ensures r.Some? ==> exists i :: 0 <= i < |data| && r.value == NewExchangeRate(t, data[i])
                                   && data[i].baseCurrencyCode == base && data[i].quoteCurrencyCode == quote
                                   && forall j :: 0 <= j < i ==> !(data[j].baseCurrencyCode == base && data[j].quoteCurrencyCode == quote)
  {
    var rs := GetExchangeRates(t, data);
    var found := FindFrom(rs, base, quote, 0);
    if found.None? then None
    else
      var rate := rs[found.value];
      Some(ExchangeRate(NewCurrency(t, rate.baseCurrency.code), NewCurrency(t, rate.quoteCurrency.code), rate.rate, rate.date))
  }

  predicate Quotes(e: RateEntry, base: string, quote: string) {
    e.baseCurrencyCode == base && e.quoteCurrencyCode == quote
  }

  /** `ExchangeRate.getQuoteCurrencyCodes(base)`: the quotes of the entries with that base, in data order. */
  function GetQuoteCurrencyCodes(data: seq<RateEntry>, base: string): (r: seq<string>)
    ensures forall q :: q in r <==> exists i :: 0 <= i < |data| && Quotes(data[i], base, q)
    ensures |r| <= |data|
  {
    if data == [] then []
    else
      var rest := GetQuoteCurrencyCodes(data[1..], base);
      assert forall i :: 0 <= i < |data[1..]| ==> data[1..][i] == data[i + 1];
      assert forall i :: 1 <= i < |data| ==> data[i] == data[1..][i - 1];
      if data[0].baseCurrencyCode == base then [data[0].quoteCurrencyCode] + rest else rest
  }

  function BaseIs(base: string): RateEntry -> bool {
    (e: RateEntry) => e.baseCurrencyCode == base
  }

  function QuoteCode(e: RateEntry): string {
    e.quoteCurrencyCode
  }

  /** The quotes listed for a base are those of the entries with that base, entry by entry. */
  lemma {:induction false} QuoteCodesAreFilteredQuotes(data: seq<RateEntry>, base: string)
    ensures GetQuoteCurrencyCodes(data, base) == Map(Filter(data, BaseIs(base)), QuoteCode)
  {
    if data != [] {
      QuoteCodesAreFilteredQuotes(data[1..], base);
      FilterUnfold(data, BaseIs(base));
    }
  }

  /** The quotes come in data order: each is read from an entry with that base, at ascending positions. */
  lemma QuoteCodesInDataOrder(data: seq<RateEntry>, base: string)
    ensures var r := GetQuoteCurrencyCodes(data, base);
            exists idx :: Ascending(idx, |data|) && |idx| == |r|
                          && forall k :: 0 <= k < |r| ==> Quotes(data[idx[k]], base, r[k])
  {
    var r := GetQuoteCurrencyCodes(data, base);
    QuoteCodesAreFilteredQuotes(data, base);
    var kept := Filter(data, BaseIs(base));
    var idx := FilterInOrder(data, BaseIs(base));
    forall k | 0 <= k < |r| ensures Quotes(data[idx[k]], base, r[k]) {
      assert r[k] == kept[k].quoteCurrencyCode && kept[k] == data[idx[k]] && BaseIs(base)(kept[k]);
    }
  }

  /** `formattedRate`: the rate at the quote currency's decimal places, thousands grouped. */
  function FormattedRate(r: ExchangeRate, toFixed: (real, int) -> string): string {
    NumberFormat.Formatted(toFixed(r.rate, r.quoteCurrency.decimalPlaces))
  }

  /** `formattedDate` */
  function FormattedDate(r: ExchangeRate): (s: string)
    ensures |s| >= 10
  {
    IsoDate(r.date)
  }

  /** A rate dated 2025-05-01 shows that date. */
  lemma FormattedDateExample(r: ExchangeRate)
    requires r.date == DaysFromCivil(2025, 5, 1)
    ensures FormattedDate(r) == "2025-05-01"
  {
    CivilOfExample(r.date);
    YearDigits();
    MonthAndDayDigits();
    assert "2025" + "-" + "05" + "-" + "01" == "2025-05-01";
  }

  lemma CivilOfExample(d: Day)
    requires d == DaysFromCivil(2025, 5, 1)
    ensures CivilFromDays(d) == Civil(2025, 5, 1)
  {
    assert d == 20209;
    assert 739677 / 146097 == 5;
    assert 9192 / 1460 == 6 && 9192 / 36524 == 0 && 9192 / 146096 == 0;
    assert 9186 / 365 == 25;
    assert 25 / 4 == 6 && 25 / 100 == 0;
    assert (5 * 61 + 2) / 153 == 2;
    assert (153 * 2 + 2) / 5 == 61;
  }

  lemma YearDigits()
    ensures PadNat(2025, 4) == "2025"
  {
    assert NatToString(2025) == "2025";
  }

  lemma MonthAndDayDigits()
    ensures PadNat(5, 2) == "05" && PadNat(1, 2) == "01"
  {
    assert NatToString(5) == "5" && NatToString(1) == "1";
  }

  /** Below a thousand there is nothing to group. */
  lemma SmallRateExample()
    ensures NumberFormat.Formatted("7.76") == "7.76"
  {
    NumberFormat.FractionKept("7", "76", "");
    assert "7" + "." + "76" + "" == "7.76";
    assert NumberFormat.IsDigit('7');
    FilterKeepsAll("7", NumberFormat.IsDigit);
  }

  /** A zero-decimal amount gets its thousands comma. */
  lemma LargeRateExample()
    ensures NumberFormat.Formatted("25957") == "25,957"
  {
    var v := "25957";
    assert '.' !in v;
    NumberFormat.NoFraction(v);
    DigitsOfLargeRate(v);
    GroupedLargeRate(v);
  }

  lemma DigitsOfLargeRate(v: string)
    requires v == "25957"
    ensures NumberFormat.DigitsOf(v) == v
  {
    assert forall c :: c in v ==> NumberFormat.IsDigit(c);
    FilterKeepsAll(v, NumberFormat.IsDigit);
  }

  lemma GroupedLargeRate(v: string)
    requires v == "25957"
    ensures NumberFormat.Grouped(v) == "25,957"
  {
    assert v[..2] == "25" && v[2..] == "957";
    calc {
      NumberFormat.Grouped(v);
      NumberFormat.Grouped(v[..2]) + "," + v[2..];
      "25" + "," + "957";
    }
  }

  /** `formattedRate` for an HKD and a VND rate, whatever `toFixed` produced them from. */
  lemma FormattedRateExamples(r: ExchangeRate, toFixed: (real, int) -> string)
    ensures toFixed(r.rate, r.quoteCurrency.decimalPlaces) == "7.76" ==> FormattedRate(r, toFixed) == "7.76"
    ensures toFixed(r.rate, r.quoteCurrency.decimalPlaces) == "25957" ==> FormattedRate(r, toFixed) == "25,957"
  {
    SmallRateExample();
    LargeRateExample();
  }
}

/** `CurrencyService.getSelectableCurrencies()` (mobile/services/CurrencyService.ts). */
module MobileCurrencyService {
  import opened Common
  import opened MobileCurrency
  import opened MobileExchangeRate

  /** The quote codes of all rates, kept when USD also quotes them, as currencies. */
  function GetSelectableCurrencies(t: Currencies, data: seq<RateEntry>): (r: seq<Currency>)
    requires Typed(data, t)
    ensures forall i :: 0 <= i < |r| ==> r[i].code in t.entries && r[i] == NewCurrency(t, r[i].code)
  {
    var all := Map(GetExchangeRates(t, data), (x: ExchangeRate) => x.quoteCurrency.code);
    var usd := GetQuoteCurrencyCodes(data, "USD");
    var selectable := Filter(all, (c: string) => c in usd);
    assert forall c :: c in selectable ==> c in all;
    assert forall c :: c in all ==> c in t.entries by {
      forall c | c in all ensures c in t.entries {
        var i :| 0 <= i < |all| && all[i] == c;
      }
    }
    seq(|selectable|, i requires 0 <= i < |selectable| => assert selectable[i] in all; NewCurrency(t, selectable[i]))
  }

  /**
    Every selectable currency is quoted against USD somewhere in the data,
    there are no more of them than rates, and they keep the rates' order;
    when every rate is USD-based, they are all the rates' quote currencies.
  */
  lemma SelectableCurrencies(t: Currencies, data: seq<RateEntry>)
    requires Typed(data, t)
    ensures var r := GetSelectableCurrencies(t, data);
            forall c :: c in r ==> exists i :: 0 <= i < |data| && data[i].baseCurrencyCode == "USD"
                                                            && data[i].quoteCurrencyCode == c.code
    ensures |GetSelectableCurrencies(t, data)| <= |data|
    ensures (forall i :: 0 <= i < |data| ==> data[i].baseCurrencyCode == "USD") ==>
              GetSelectableCurrencies(t, data)
              == Map(GetExchangeRates(t, data), (x: ExchangeRate) => x.quoteCurrency)
  {
    SelectableAreUsdQuotes(t, data);
    if forall i :: 0 <= i < |data| ==> data[i].baseCurrencyCode == "USD" {
      SelectableWhenAllUsd(t, data);
    }
  }

  lemma SelectableAreUsdQuotes(t: Currencies, data: seq<RateEntry>)
    requires Typed(data, t)
    ensures var r := GetSelectableCurrencies(t, data);
            forall c :: c in r ==> exists i :: 0 <= i < |data| && data[i].baseCurrencyCode == "USD"
                                                            && data[i].quoteCurrencyCode == c.code
    ensures |GetSelectableCurrencies(t, data)| <= |data|
  {
    var all := Map(GetExchangeRates(t, data), (x: ExchangeRate) => x.quoteCurrency.code);
    var usd := GetQuoteCurrencyCodes(data, "USD");
    var selectable := Filter(all, (c: string) => c in usd);
    var r := GetSelectableCurrencies(t, data);
    assert |r| == |selectable| <= |all| == |data|;
    forall c | c in r
      ensures exists i :: 0 <= i < |data| && data[i].baseCurrencyCode == "USD" && data[i].quoteCurrencyCode == c.code
    {
      var k :| 0 <= k < |r| && r[k] == c;
      assert c.code == selectable[k] && selectable[k] in usd;
    }
  }

  lemma SelectableWhenAllUsd(t: Currencies, data: seq<RateEntry>)
    requires Typed(data, t)
    requires forall i :: 0 <= i < |data| ==> data[i].baseCurrencyCode == "USD"
    ensures GetSelectableCurrencies(t, data) == Map(GetExchangeRates(t, data), (x: ExchangeRate) => x.quoteCurrency)
  {
    var rates := GetExchangeRates(t, data);
    var all := Map(rates, (x: ExchangeRate) => x.quoteCurrency.code);
    var usd := GetQuoteCurrencyCodes(data, "USD");
    assert forall c :: c in all ==> c in usd by {
      forall c | c in all ensures c in usd {
        var i :| 0 <= i < |all| && all[i] == c;
        assert data[i].quoteCurrencyCode == c;
      }
    }
    FilterKeepsAll(all, (c: string) => c in usd);
    var r := GetSelectableCurrencies(t, data);
    var quotes := Map(rates, (x: ExchangeRate) => x.quoteCurrency);
    assert |r| == |all| == |quotes|;
    forall k | 0 <= k < |r| ensures r[k] == quotes[k] {
      assert r[k] == NewCurrency(t, all[k]);
      assert quotes[k] == rates[k].quoteCurrency;
    }
  }

  /** The selectable currencies keep the data's order: each is the quote of an entry at ascending positions. */
  lemma SelectableInDataOrder(t: Currencies, data: seq<RateEntry>)
    requires Typed(data, t)
    ensures var r := GetSelectableCurrencies(t, data);
            exists idx :: Ascending(idx, |data|) && |idx| == |r|
                          && forall k :: 0 <= k < |r| ==> r[k].code == data[idx[k]].quoteCurrencyCode
  {
    var all := Map(GetExchangeRates(t, data), (x: ExchangeRate) => x.quoteCurrency.code);
    var usd := GetQuoteCurrencyCodes(data, "USD");
    var selectable := Filter(all, (c: string) => c in usd);
    var r := GetSelectableCurrencies(t, data);
    var idx := FilterInOrder(all, (c: string) => c in usd);
    forall k | 0 <= k < |r| ensures r[k].code == data[idx[k]].quoteCurrencyCode {
      assert r[k].code == selectable[k] && selectable[k] == all[idx[k]];
    }
  }
}
