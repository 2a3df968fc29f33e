/**
  The backend's `Currency` value (app/models/currency.py): a currency code
  string whose equality ignores letter case on its own side and on the side
  of another `Currency` or library currency value, but not on the side of a
  plain string. Validity is membership of the upper-cased code in the ISO
  4217 list, which is passed in as `allowed`.
*/
module CurrencyCode {
  import opened Common

  /** The right-hand operand of `Currency.__eq__`, by its runtime class. */
  datatype Operand =
    | CurrencyValue(code: string)      // an app `Currency`
    | BaseCurrencyValue(code: string)  // the library's `Currency`, not ours
    | PlainString(text: string)        // a plain `str`
    | OtherObject                      // anything else

  /** What `__eq__` returns: a truth value, or `NotImplemented`. */
  datatype EqResult = Equal(b: bool) | NotImplemented

  /** `Currency.iso_code`: the code upper-cased. */
  function IsoCode(code: string): (r: string)
    ensures |r| == |code|
    ensures forall i :: 0 <= i < |r| ==> !IsLowerAscii(r[i])
    ensures forall i :: 0 <= i < |r| ==> !IsLowerAscii(code[i]) ==> r[i] == code[i]
  {
    Upper(code)
  }

  /** `Currency(code).__eq__(other)` */
  function Equals(code: string, other: Operand): EqResult {
    match other
    case CurrencyValue(c) => Equal(IsoCode(code) == IsoCode(c))
    case BaseCurrencyValue(c) => Equal(IsoCode(code) == Upper(c))
    case PlainString(s) => Equal(IsoCode(code) == s)
    case OtherObject => NotImplemented
  }

  /** `Currency(a) == Currency(b)`, the comparison every caller of the services makes. */
  predicate Same(a: string, b: string) {
    Equals(a, CurrencyValue(b)) == Equal(true)
  }

  /** `Currency.is_valid()` */
  predicate IsValid(code: string, allowed: set<string>) {
    IsoCode(code) in allowed
  }

  lemma SameIffUpperEqual(a: string, b: string)
    ensures Same(a, b) <==> Upper(a) == Upper(b)
    ensures Same(a, b) <==> Same(b, a)
    ensures Same(a, a)
  {
  }

  lemma SameTransitive(a: string, b: string, c: string)
    requires Same(a, b) && Same(b, c)
    ensures Same(a, c)
  {
  }

  /** Against a plain string only the `Currency` side is upper-cased. */
  lemma PlainStringComparison(code: string, s: string)
    ensures Equals(code, PlainString(s)) == Equal(true) <==> Upper(code) == s
    ensures Equals(code, PlainString(s)) == Equal(true) ==> forall i :: 0 <= i < |s| ==> !IsLowerAscii(s[i])
  {
  }

  /** Every casing of "usd" equals the string "USD"; none equals "usd". */
  lemma UsdCasings()
    ensures Equals("usd", PlainString("USD")) == Equal(true)
    ensures Equals("uSd", PlainString("USD")) == Equal(true)
    ensures Equals("USD", PlainString("usd")) == Equal(false)
    ensures Equals("USD", BaseCurrencyValue("Usd")) == Equal(true)
    ensures Same("usd", "USD")
    ensures !Same("USD", "JPY")
  {
    assert Upper("usd") == "USD";
    assert Upper("uSd") == "USD";
    assert Upper("Usd") == "USD";
    assert Upper("USD") == "USD";
    assert Upper("JPY") == "JPY";
  }

  /** Validity depends on the code only through its upper-cased form. */
  lemma ValidityIgnoresCase(a: string, b: string, allowed: set<string>)
    requires Same(a, b)
    ensures IsValid(a, allowed) <==> IsValid(b, allowed)
  {
  }
}
