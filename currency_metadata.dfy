/**
  Descriptive data of a currency (app/models/currency_metadata.py) and its
  conversion from and to the dictionary shape of the bundled JSON table.
  Dictionary values are typed by what JSON can hold; the record's fields
  are validated the way the record's declared types demand.
*/
module CurrencyMetadata {
  import opened Common

  const DefaultDecimals: int := 2

  /** A value of the metadata dictionary. */
  datatype Value = VStr(s: string) | VInt(i: int) | VNone

  type Dict = map<string, Value>

  const Keys: set<string> := {"name", "symbol", "flag", "decimals"}

  datatype Metadata = Metadata(name: string, isoCode: string, symbol: string, flag: string, decimals: Option<int>)

  datatype Error =
    | KeyError(key: string)          // a required key is absent
    | ValidationError(field: string)  // a value has the wrong type for its field

  /** The string value under `key`, or why there is none. */
  function StrField(d: Dict, key: string): (r: Result<string, Error>)
    ensures r.Ok? <==> key in d && d[key].VStr?
    ensures r.Ok? ==> d[key] == VStr(r.value)
    ensures key !in d ==> r == Err(KeyError(key))
  {
    if key !in d then Err(KeyError(key))
    else match d[key]
      case VStr(s) => Ok(s)
      case _ => Err(ValidationError(key))
  }

  /** A string that lax `int` validation reads as a number: one or more decimal digits. */
  predicate NumericString(s: string) {
    s != [] && AllDigits(s)
  }

  /**
    `data.get("decimals", DEFAULT_DECIMALS)`, validated as `int | None` in
    lax mode: an integer is kept, and a string of digits is read as the
    number it spells.
  */
  function DecimalsField(d: Dict): (r: Result<Option<int>, Error>)
    ensures "decimals" !in d ==> r == Ok(Some(DefaultDecimals))
    ensures "decimals" in d && d["decimals"] == VNone ==> r == Ok(None)
    ensures "decimals" in d && d["decimals"].VInt? ==> r == Ok(Some(d["decimals"].i))
    ensures "decimals" in d && d["decimals"].VStr? ==>
              (r.Ok? <==> NumericString(d["decimals"].s))
              && (r.Ok? ==> r.value == Some(DigitsValue(d["decimals"].s)))
              && (r.Err? ==> r.error == ValidationError("decimals"))
  {
    if "decimals" !in d then Ok(Some(DefaultDecimals))
    else match d["decimals"]
      case VInt(i) => Ok(Some(i))
      case VNone => Ok(None)
      case VStr(s) => if NumericString(s) then Ok(Some(DigitsValue(s))) else Err(ValidationError("decimals"))
  }

  /** The decimal rendering of any count of decimals validates back to that count. */
  lemma DecimalsStringReadBack(d: Dict, n: nat)
    requires "decimals" in d && d["decimals"] == VStr(NatToString(n))
    ensures DecimalsField(d) == Ok(Some(n))
  {
    DigitsOfNatToString(n);
  }

  /**
    `CurrencyMetadata.from_dict(iso_code, data)`. The dictionary look-ups
    run in argument order (name, symbol, flag) and raise before the record
    is validated, so a missing key is reported ahead of a wrongly typed value.
  */
  function FromDict(isoCode: string, d: Dict): (r: Result<Metadata, Error>)
    ensures r.Ok? <==> ("name" in d && d["name"].VStr? && "symbol" in d && d["symbol"].VStr?
                        && "flag" in d && d["flag"].VStr?
                        && ("decimals" in d && d["decimals"].VStr? ==> NumericString(d["decimals"].s)))
    ensures r.Ok? ==> r.value.isoCode == isoCode
    ensures r.Ok? ==> d["name"] == VStr(r.value.name) && d["symbol"] == VStr(r.value.symbol)
                      && d["flag"] == VStr(r.value.flag)
    ensures r.Ok? ==> ("decimals" !in d ==> r.value.decimals == Some(DefaultDecimals))
    ensures "name" !in d ==> r == Err(KeyError("name"))
  {
    if "name" !in d then Err(KeyError("name"))
    else if "symbol" !in d then Err(KeyError("symbol"))
    else if "flag" !in d then Err(KeyError("flag"))
    else
      match (StrField(d, "name"), StrField(d, "symbol"), StrField(d, "flag"), DecimalsField(d))
      case (Ok(n), Ok(s), Ok(f), Ok(dec)) => Ok(Metadata(n, isoCode, s, f, dec))
      case (Err(e), _, _, _) => Err(e)
      case (_, Err(e), _, _) => Err(e)
      case (_, _, Err(e), _) => Err(e)
      case (_, _, _, Err(e)) => Err(e)
  }

  /** `CurrencyMetadata.to_dict()` */
  function ToDict(m: Metadata): (r: Dict)
    ensures r.Keys == Keys
    ensures r["name"] == VStr(m.name) && r["symbol"] == VStr(m.symbol) && r["flag"] == VStr(m.flag)
    ensures r["decimals"] == (if m.decimals.Some? then VInt(m.decimals.value) else VNone)
  {
    map["name" := VStr(m.name), "symbol" := VStr(m.symbol), "flag" := VStr(m.flag),
        "decimals" := if m.decimals.Some? then VInt(m.decimals.value) else VNone]
  }

  /** A record survives the trip to a dictionary and back. */
  lemma FromToDict(m: Metadata)
    ensures FromDict(m.isoCode, ToDict(m)) == Ok(m)
  {
    var d := ToDict(m);
    assert StrField(d, "name") == Ok(m.name);
    assert StrField(d, "symbol") == Ok(m.symbol);
    assert StrField(d, "flag") == Ok(m.flag);
    assert DecimalsField(d) == Ok(m.decimals);
  }

  /**
    A dictionary of exactly the four keys that converts to a record comes
    back unchanged, except that decimals given as a string of digits come
    back as the number. The decimals key is needed: without it the
    default 2 is filled in and the dictionary gains a key.
  */
  lemma ToFromDict(isoCode: string, d: Dict)
    requires d.Keys == Keys
    requires FromDict(isoCode, d).Ok?
    ensures ToDict(FromDict(isoCode, d).value)
            == if d["decimals"].VStr? then d["decimals" := VInt(DigitsValue(d["decimals"].s))] else d
  {
    var m := FromDict(isoCode, d).value;
    assert DecimalsField(d) == Ok(m.decimals);
    var t := ToDict(m);
    var e := if d["decimals"].VStr? then d["decimals" := VInt(DigitsValue(d["decimals"].s))] else d;
    assert t.Keys == e.Keys;
    assert forall k :: k in e ==> t[k] == e[k];
  }

  /** Without a decimals key the round trip adds one holding 2. */
  lemma MissingDecimalsIsFilledIn(isoCode: string, d: Dict)
    requires d.Keys == {"name", "symbol", "flag"}
    requires FromDict(isoCode, d).Ok?
    ensures ToDict(FromDict(isoCode, d).value) == d["decimals" := VInt(DefaultDecimals)]
  {
    var t := ToDict(FromDict(isoCode, d).value);
    assert t.Keys == d["decimals" := VInt(DefaultDecimals)].Keys;
  }
}
