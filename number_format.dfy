/**
  The amount-field formatter of the mobile app (mobile/utilities/number.ts,
  `parseTextAsNumber`), its formatted half: digits of the whole part
  grouped by thousands, then the fractional text as typed. The numeric
  half is `parseFloat` and is not modelled.
*/
module NumberFormat {
  import opened Common

  predicate IsDigit(c: char) {
    '0' <= c <= '9'
  }

  /** The text before the first '.', or all of it. */
  function Whole(s: string): (r: string)
    ensures '.' !in r
    ensures '.' !in s ==> r == s
    ensures '.' in s ==> |r| < |s| && s[|r|] == '.' && r == s[..|r|]
  {
    if s == [] || s[0] == '.' then [] else [s[0]] + Whole(s[1..])
  }

  /** The text between the first '.' and the next one, if there is a first: `value.split(".")[1]`. */
  function Fraction(s: string): (r: Option<string>)
    ensures r.Some? <==> '.' in s
    ensures r.Some? ==> '.' !in r.value && r.value == Whole(s[|Whole(s)| + 1..])
  {
    if '.' in s then Some(Whole(s[|Whole(s)| + 1..])) else None
  }

  /** `whole.replace(/[^0-9.]/g, "")` (the whole part has no '.'). */
  function DigitsOf(s: string): (r: string)
    ensures forall c :: c in r ==> IsDigit(c)
  {
    Filter(s, IsDigit)
  }

  /** `digits.replace(/\B(?=(\d{3})+(?!\d))/g, ",")`: a comma before each group of three from the right. */
  function Grouped(d: string): (r: string)
    decreases |d|
  {
    if |d| <= 3 then d else Grouped(d[..|d| - 3]) + "," + d[|d| - 3..]
  }

  /** The result of `parseTextAsNumber(value).formatted`. */
  function Formatted(value: string): (r: string)
    ensures value == "" ==> r == "0.00"
  {
    if value == "" then "0.00"
    else
      var grouped := Grouped(DigitsOf(Whole(value)));
      var fraction := Fraction(value);
      if fraction.Some? then grouped + "." + fraction.value else grouped
  }

  /** The comma positions: every fourth character from the right, never first or last. */
  lemma GroupedShape(d: string)
    requires forall c :: c in d ==> IsDigit(c)
    ensures var r := Grouped(d);
            && |r| == |d| + (if d == [] then 0 else (|d| - 1) / 3)
            && (forall i :: 0 <= i < |r| ==> (r[i] == ',' <==> (|r| - i) % 4 == 0))
            && (r != [] ==> r[0] != ',' && r[|r| - 1] != ',')
  {
    var r := Grouped(d);
    GroupedLength(d);
    GroupedCommas(d);
    if r != [] {
      var k := (|d| - 1) / 3;
      assert |d| - 1 == 3 * k + (|d| - 1) % 3;
      assert |r| == 4 * k + 1 + (|d| - 1) % 3;
      assert |r| % 4 != 0;
    }
  }

  lemma GroupedStep(d: string)
    requires |d| > 3
    ensures Grouped(d) == Grouped(d[..|d| - 3]) + "," + d[|d| - 3..]
  {
  }

  /** Grouping adds one comma per full group of three after the first digit. */
  lemma {:induction false} GroupedLength(d: string)
    ensures |Grouped(d)| == |d| + (if d == [] then 0 else (|d| - 1) / 3)
    decreases |d|
  {
    if |d| > 3 {
      var init := d[..|d| - 3];
      GroupedStep(d);
      GroupedLength(init);
      assert |d| - 1 == (|init| - 1) + 3;
    }
  }

  lemma {:induction false} GroupedCommas(d: string)
    requires forall c :: c in d ==> IsDigit(c)
    ensures var r := Grouped(d);
            forall i :: 0 <= i < |r| ==> (r[i] == ',' <==> (|r| - i) % 4 == 0)
    decreases |d|
  {
    var r := Grouped(d);
    if |d| > 3 {
      var init := d[..|d| - 3];
      var last := d[|d| - 3..];
      assert forall c :: c in init ==> c in d;
      assert forall c :: c in last ==> c in d;
      GroupedStep(d);
      GroupedCommas(init);
      var g := Grouped(init);
      assert r == g + "," + last;
      forall i | 0 <= i < |r| ensures r[i] == ',' <==> (|r| - i) % 4 == 0 {
        if i < |g| {
          assert r[i] == g[i];
          assert |r| - i == (|g| - i) + 4;
        } else if i > |g| {
          assert r[i] == last[i - |g| - 1];
          assert IsDigit(r[i]);
        }
      }
    } else {
      forall i | 0 <= i < |r| ensures r[i] == ',' <==> (|r| - i) % 4 == 0 {
        assert r[i] in d;
      }
    }
  }

  predicate NotComma(c: char) {
    c != ','
  }

  /** Taking the commas out again gives back the digits. */
  lemma {:induction false} UngroupedIsDigits(d: string)
    ensures Filter(Grouped(d), NotComma) == Filter(d, NotComma)
    decreases |d|
  {
    if |d| > 3 {
      var init := d[..|d| - 3];
      var last := d[|d| - 3..];
      var g := Grouped(init);
      assert d == init + last;
      calc {
        Filter(Grouped(d), NotComma);
        { assert Grouped(d) == (g + ",") + last; }
        Filter((g + ",") + last, NotComma);
        { FilterConcat(g + ",", last, NotComma); }
        Filter(g + ",", NotComma) + Filter(last, NotComma);
        { FilterConcat(g, ",", NotComma); CommaFiltered(); }
        Filter(g, NotComma) + Filter(last, NotComma);
        { UngroupedIsDigits(init); }
        Filter(init, NotComma) + Filter(last, NotComma);
        { FilterConcat(init, last, NotComma); }
        Filter(d, NotComma);
      }
    }
  }

  lemma CommaFiltered()
    ensures Filter(",", NotComma) == []
  {
    assert ","[1..] == [];
  }

  lemma {:induction false} FilterConcat<T(!new)>(a: seq<T>, b: seq<T>, p: T -> bool)
    ensures Filter(a + b, p) == Filter(a, p) + Filter(b, p)
  {
    if a != [] {
      assert (a + b)[1..] == a[1..] + b;
      FilterConcat(a[1..], b, p);
    } else {
      assert a + b == b;
    }
  }

  /** Digit strings have no commas to take out, so ungrouping returns the digit-filtered whole part. */
  lemma UngroupedWhole(value: string)
    ensures Filter(Grouped(DigitsOf(Whole(value))), NotComma) == DigitsOf(Whole(value))
  {
    var d := DigitsOf(Whole(value));
    UngroupedIsDigits(d);
    FilterKeepsAll(d, NotComma);
  }

  /**
    With a '.', the fractional text follows verbatim, empty or not, and
    whatever comes from a second '.' on is dropped.
  */
  lemma FractionKept(whole: string, fraction: string, more: string)
    requires '.' !in whole && '.' !in fraction && (more == [] || more[0] == '.')
    ensures Formatted(whole + "." + fraction + more) == Grouped(DigitsOf(whole)) + "." + fraction
  {
    var s := whole + "." + fraction + more;
    var after := fraction + more;
    assert s == whole + ['.'] + after;
    SplitAtPoint(whole, after);
    WholeOfPrefix(fraction, more);
    FormattedWithPoint(s);
  }

  lemma FormattedWithPoint(s: string)
    requires '.' in s
    ensures Formatted(s) == Grouped(DigitsOf(Whole(s))) + "." + Fraction(s).value
  {
  }

  /** The text on either side of the first '.'. */
  lemma SplitAtPoint(whole: string, after: string)
    requires '.' !in whole
    ensures Whole(whole + ['.'] + after) == whole
    ensures Fraction(whole + ['.'] + after) == Some(Whole(after))
  {
    var s := whole + ['.'] + after;
    assert s == whole + (['.'] + after);
    WholeOfPrefix(whole, ['.'] + after);
    assert s[|whole|] == '.' && s[|whole|] in s;
    assert s[|whole| + 1..] == after;
  }

  /** Without a '.', the formatted text is the grouped digits alone. */
  lemma NoFraction(value: string)
    requires value != "" && '.' !in value
    ensures Formatted(value) == Grouped(DigitsOf(value))
  {
  }

  lemma {:induction false} WholeOfPrefix(w: string, rest: string)
    requires '.' !in w && (rest == [] || rest[0] == '.')
    ensures Whole(w + rest) == w
  {
    if w != [] {
      assert (w + rest)[1..] == w[1..] + rest;
      assert w[0] in w;
      WholeOfPrefix(w[1..], rest);
      assert w == [w[0]] + w[1..];
    } else {
      assert w + rest == rest;
    }
  }

  /** "1234567890" becomes "1,234,567,890". */
  lemma GroupingExample()
    ensures Grouped("1234567890") == "1,234,567,890"
  {
    assert Grouped("1") == "1";
    assert "1234"[..1] == "1" && "1234"[1..] == "234";
    assert Grouped("1234") == "1,234";
    assert "1234567"[..4] == "1234" && "1234567"[4..] == "567";
    assert Grouped("1234567") == "1,234,567";
    assert "1234567890"[..7] == "1234567" && "1234567890"[7..] == "890";
  }
}
