/**
  The base/quote picker of the web client
  (frontend/src/components/CurrencyPairSelection.tsx): the cleaned, ordered
  code lists, the options built from them, and the component's state as it
  changes under selection and swap. `localeCompare` is code-point order,
  which agrees with it on upper-case ISO codes; `CURRENCIES` is a parameter.
*/
module PairSelection {
  import opened Common
  import opened Sorting

  datatype CurrencyPair = CurrencyPair(base: string, quote: string)
  datatype CurrencyInfo = CurrencyInfo(name: string, icon: string)
  datatype SelectOption = SelectOption(icon: string, value: string, caption: string)

  /** The sort comparator: the prioritised code before every other, the rest in code-point order. */
  function PrioritisedLt(prio: string): (string, string) -> bool {
    (a: string, b: string) => a != b && (a == prio || (b != prio && StrLt(a, b)))
  }

  lemma PrioritisedLtIsStrictTotalOrder(prio: string)
    ensures StrictTotalOrder(PrioritisedLt(prio))
  {
    var lt := PrioritisedLt(prio);
    forall a: string ensures !lt(a, a) {
    }
    forall a: string, b: string, c: string | lt(a, b) && lt(b, c) ensures lt(a, c) {
      if a != prio {
        StrLtTransitive(a, b, c);
        if a == c { StrLtIrreflexive(a); }
      }
    }
    forall a: string, b: string | a != b ensures lt(a, b) || lt(b, a) {
      StrLtTotal(a, b);
    }
  }

  /** `cleanCurrencyList(isoCodes, prioritizedCurrency)`: `new Set` then `sort`. */
  function CleanCurrencyList(codes: seq<string>, prio: string := "USD"): (r: seq<string>)
    ensures Elems(r) == Elems(codes)
    ensures StrictlySorted(r, PrioritisedLt(prio))
  {
    PrioritisedLtIsStrictTotalOrder(prio);
    SortedDistinctSorted(codes, PrioritisedLt(prio));
    SortedDistinct(codes, PrioritisedLt(prio))
  }

  /**
    The cleaned list holds each input code once; the prioritised code, when
    present, comes first; the rest are in ascending order.
  */
  lemma CleanCurrencyListOrder(codes: seq<string>, prio: string)
    ensures var r := CleanCurrencyList(codes, prio);
            forall i, j :: 0 <= i < j < |r| ==> r[i] != r[j]
    ensures |CleanCurrencyList(codes, prio)| == |Elems(codes)|
    ensures prio in codes ==> CleanCurrencyList(codes, prio)[0] == prio
    ensures var r := CleanCurrencyList(codes, prio);
            forall i, j :: 0 <= i < j < |r| && r[i] != prio ==> StrLt(r[i], r[j])
  {
    var r := CleanCurrencyList(codes, prio);
    PrioritisedLtIsStrictTotalOrder(prio);
    SortedHasNoDuplicates(r, PrioritisedLt(prio));
    DistinctCard(r);
    if prio in codes {
      assert prio in Elems(r);
      var k :| 0 <= k < |r| && r[k] == prio;
      assert !PrioritisedLt(prio)(r[0], prio);
    }
    forall i, j | 0 <= i < j < |r| && r[i] != prio ensures StrLt(r[i], r[j]) {
      assert PrioritisedLt(prio)(r[i], r[j]);
    }
  }

  /** Any arrangement of the same codes without repeats, in comparator order, is the cleaned list. */
  lemma CleanCurrencyListDetermined(codes: seq<string>, prio: string, s: seq<string>)
    requires Elems(s) == Elems(codes) && StrictlySorted(s, PrioritisedLt(prio))
    ensures s == CleanCurrencyList(codes, prio)
  {
    PrioritisedLtIsStrictTotalOrder(prio);
    SortedUnique(s, CleanCurrencyList(codes, prio), PrioritisedLt(prio));
  }

  function OptionFor(code: string, currencies: map<string, CurrencyInfo>): SelectOption {
    if code in currencies then SelectOption(currencies[code].icon, code, code + " (" + currencies[code].name + ")")
    else SelectOption("", code, code)
  }

  /** `buildCurrencyOptions(currencyCodes)`: one option per code, in order, valued by the code. */
  function BuildCurrencyOptions(codes: seq<string>, currencies: map<string, CurrencyInfo>): (r: seq<SelectOption>)
    ensures |r| == |codes|
    ensures forall i :: 0 <= i < |codes| ==> r[i].value == codes[i]
    ensures forall i :: 0 <= i < |codes| && codes[i] !in currencies ==> r[i].caption == codes[i] && r[i].icon == ""
    ensures forall i :: 0 <= i < |codes| && codes[i] in currencies ==>
              r[i].caption == codes[i] + " (" + currencies[codes[i]].name + ")" && r[i].icon == currencies[codes[i]].icon
  {
    Map(codes, (c: string) => OptionFor(c, currencies))
  }

  predicate Truthy(code: Option<string>) {
    code.Some? && code.value != ""
  }

  function QuotesOf(base: string, pairs: seq<CurrencyPair>): (r: seq<string>)
    ensures forall q :: q in r <==> CurrencyPair(base, q) in pairs
  {
    var ps := Filter(pairs, (p: CurrencyPair) => p.base == base);
    var r := Map(ps, (p: CurrencyPair) => p.quote);
    assert forall q :: q in r <==> CurrencyPair(base, q) in pairs by {
      forall q ensures q in r <==> CurrencyPair(base, q) in pairs {
        if CurrencyPair(base, q) in pairs {
          assert CurrencyPair(base, q) in ps;
          var i :| 0 <= i < |ps| && ps[i] == CurrencyPair(base, q);
          assert r[i] == q;
        }
      }
    }
    r
  }

  /** The quote codes paired with `base`. */
  function QuoteSet(base: string, pairs: seq<CurrencyPair>): set<string> {
    set p | p in pairs && p.base == base :: p.quote
  }

  /** `buildQuoteCurrencyOptions(baseCurrency, currencyPairs)` */
  function BuildQuoteCurrencyOptions(base: Option<string>, pairs: seq<CurrencyPair>,
                                     currencies: map<string, CurrencyInfo>): (r: seq<SelectOption>)
    ensures !Truthy(base) ==> r == []
    ensures Truthy(base) ==> r == BuildCurrencyOptions(CleanCurrencyList(QuotesOf(base.value, pairs)), currencies)
  {
    if !Truthy(base) then [] else BuildCurrencyOptions(CleanCurrencyList(QuotesOf(base.value, pairs)), currencies)
  }

  /** The quotes offered for a base are exactly that base's pairs' quotes, once each. */
  lemma QuoteOptionsOffered(base: string, pairs: seq<CurrencyPair>, currencies: map<string, CurrencyInfo>)
    requires base != ""
    ensures var r := BuildQuoteCurrencyOptions(Some(base), pairs, currencies);
            && (forall q :: (exists i :: 0 <= i < |r| && r[i].value == q) <==> CurrencyPair(base, q) in pairs)
            && (forall i, j :: 0 <= i < j < |r| ==> r[i].value != r[j].value)
            && |r| == |QuoteSet(base, pairs)|
  {
    var qs := QuotesOf(base, pairs);
    var c := CleanCurrencyList(qs);
    var r := BuildQuoteCurrencyOptions(Some(base), pairs, currencies);
    CleanCurrencyListOrder(qs, "USD");
    forall q ensures (exists i :: 0 <= i < |r| && r[i].value == q) <==> CurrencyPair(base, q) in pairs {
      if CurrencyPair(base, q) in pairs {
        assert q in Elems(c);
        var i :| 0 <= i < |c| && c[i] == q;
        assert r[i].value == q;
      }
      if exists i :: 0 <= i < |r| && r[i].value == q {
        var i :| 0 <= i < |r| && r[i].value == q;
        assert c[i] in Elems(qs);
      }
    }
    assert Elems(qs) == QuoteSet(base, pairs);
  }

  /** What the `useEffect` does after a change of selection: submit the pair once both are chosen. */
  function Submissions(before: (Option<string>, Option<string>), after: (Option<string>, Option<string>))
    : (r: seq<CurrencyPair>)
    ensures |r| <= 1
    ensures r != [] <==> after != before && Truthy(after.0) && Truthy(after.1)
    ensures r != [] ==> r[0] == CurrencyPair(after.0.value, after.1.value)
  {
    if after != before && Truthy(after.0) && Truthy(after.1) then [CurrencyPair(after.0.value, after.1.value)] else []
  }

  /** The `CurrencyPairSelection` component's state. */
  class Selection {
    const pairs: seq<CurrencyPair>
    const currencies: map<string, CurrencyInfo>
    var base: Option<string>
    var quote: Option<string>
    var quoteOptions: seq<SelectOption>
    /** The calls of `handleSubmit`, in order. */
    var submitted: seq<CurrencyPair>

    ghost predicate Valid()
      reads this
    {
      forall i :: 0 <= i < |submitted| ==> submitted[i].base != "" && submitted[i].quote != ""
    }

    /** The base options: every base code once, USD first, the rest in order. */
    function BaseOptions(): (r: seq<SelectOption>)
      reads this
    {
      BuildCurrencyOptions(CleanCurrencyList(Map(pairs, (p: CurrencyPair) => p.base)), currencies)
    }

    /** The first render with the initial values, and the effect it runs. */
    constructor (pairs: seq<CurrencyPair>, currencies: map<string, CurrencyInfo>,
                 initialBase: Option<string>, initialQuote: Option<string>)
      ensures Valid()
      ensures this.pairs == pairs && this.currencies == currencies
      ensures base == initialBase && quote == initialQuote
      ensures quoteOptions == BuildQuoteCurrencyOptions(initialBase, pairs, currencies)
      ensures submitted == (if Truthy(initialBase) && Truthy(initialQuote)
                            then [CurrencyPair(initialBase.value, initialQuote.value)] else [])
    {
      this.pairs := pairs;
      this.currencies := currencies;
      base := initialBase;
      quote := initialQuote;
      quoteOptions := BuildQuoteCurrencyOptions(initialBase, pairs, currencies);
      submitted := if Truthy(initialBase) && Truthy(initialQuote)
                   then [CurrencyPair(initialBase.value, initialQuote.value)] else [];
    }

    /** The effect after a handler: React has batched its updates into one render. */
    method Effect(before: (Option<string>, Option<string>))
      requires Valid()
      modifies this
      ensures Valid()
      ensures base == old(base) && quote == old(quote) && quoteOptions == old(quoteOptions)
      ensures submitted == old(submitted) + Submissions(before, (base, quote))
    {
      submitted := submitted + Submissions(before, (base, quote));
    }

    /** `handleSelectBaseOption(selected)` */
    method SelectBase(selected: string)
      requires Valid()
      modifies this
      ensures Valid()
      ensures base == Some(selected)
      ensures quoteOptions == BuildQuoteCurrencyOptions(Some(selected), pairs, currencies)
      ensures quote == if |quoteOptions| == 1 then Some(quoteOptions[0].value) else None
      ensures submitted == old(submitted) + Submissions((old(base), old(quote)), (base, quote))
    {
      var before := (base, quote);
      base := Some(selected);
      quote := None;
      var options := BuildQuoteCurrencyOptions(Some(selected), pairs, currencies);
      quoteOptions := options;
      if |options| == 1 {
        quote := Some(options[0].value);
      }
      Effect(before);
    }

    /** `handleSelectQuoteOption(selected)` */
    method SelectQuote(selected: string)
      requires Valid()
      modifies this
      ensures Valid()
      ensures base == old(base) && quote == Some(selected) && quoteOptions == old(quoteOptions)
      ensures submitted == old(submitted) + Submissions((old(base), old(quote)), (base, quote))
    {
      var before := (base, quote);
      quote := Some(selected);
      Effect(before);
    }

    /** `handleSwap()`: only with both codes chosen; the intermediate nulls are batched away. */
    method Swap()
      requires Valid()
      modifies this
      ensures Valid()
      ensures Truthy(old(base)) && Truthy(old(quote)) ==>
                && base == old(quote) && quote == old(base)
                && quoteOptions == BuildQuoteCurrencyOptions(old(quote), pairs, currencies)
      ensures !(Truthy(old(base)) && Truthy(old(quote))) ==>
                base == old(base) && quote == old(quote) && quoteOptions == old(quoteOptions)
      ensures submitted == old(submitted) + Submissions((old(base), old(quote)), (base, quote))
    {
      var before := (base, quote);
      if Truthy(base) && Truthy(quote) {
        var tempBase := base;
        var tempQuote := quote;
        base := None;
        quote := None;
        quoteOptions := BuildQuoteCurrencyOptions(tempQuote, pairs, currencies);
        base := tempQuote;
        quote := tempBase;
      }
      Effect(before);
    }
  }

  /**
    Choosing a base selects the quote by itself exactly when that base has
    one quote in the pairs, and then submits that pair when it differs from
    the one shown before.
  */
  lemma AutoSelectedQuote(base: string, pairs: seq<CurrencyPair>, currencies: map<string, CurrencyInfo>)
    requires base != ""
    ensures |BuildQuoteCurrencyOptions(Some(base), pairs, currencies)| == 1
            <==> |QuoteSet(base, pairs)| == 1
  {
    QuoteOptionsOffered(base, pairs, currencies);
  }
}
