/**
  The change card of the dashboard (frontend/src/components/ChangeCard.tsx):
  the headline naming how far back the comparison goes, the relative change
  and its wording, and the outline colour. Big.js arithmetic is exact here
  (its 20-digit division is not modelled) and `toFixed(2)` is a parameter.
*/
module ChangeCard {
  import opened Common
  import opened Dates

  /** `Math.round(n / d)` for a positive divisor: halves round up. */
  function RoundDiv(n: int, d: int): (r: int)
    requires d > 0
    ensures 2 * n >= (2 * r - 1) * d && 2 * n < (2 * r + 1) * d
  {
    (2 * n + d) / (2 * d)
  }

  /** `getHeadline(baseDate, comparisonDate)` */
  function Headline(baseDate: Day, comparisonDate: Day): string {
    "vs. " + HeadlineTail(baseDate - comparisonDate)
  }

  /** What follows "vs. " for a difference of `n` days. */
  function HeadlineTail(n: int): string {
    if n < 7 then IntToString(n) + " days earlier"
    else if n < 30 then
      var w := RoundDiv(n, 7);
      if w == 1 then "1 week earlier" else IntToString(w) + " weeks earlier"
    else if n < 365 then
      var m := RoundDiv(n, 30);
      if m == 1 then "1 month earlier" else IntToString(m) + " months earlier"
    else
      var y := RoundDiv(n, 365);
      if y == 1 then "1 year earlier" else IntToString(y) + " years earlier"
  }

  /**
    The singular forms cover exactly the day differences that round to one
    unit: 7 to 10 days, 30 to 44 days and 365 to 547 days.
  */
  lemma SingularHeadlines(baseDate: Day, comparisonDate: Day)
    ensures var n := baseDate - comparisonDate;
            Headline(baseDate, comparisonDate) == "vs. 1 week earlier" <==> 7 <= n <= 10
    ensures var n := baseDate - comparisonDate;
            Headline(baseDate, comparisonDate) == "vs. 1 month earlier" <==> 30 <= n <= 44
    ensures var n := baseDate - comparisonDate;
            Headline(baseDate, comparisonDate) == "vs. 1 year earlier" <==> 365 <= n <= 547
  {
    var n := baseDate - comparisonDate;
    var tail := HeadlineTail(n);
    SingularTails(n);
    PrefixCancels("vs. ", tail, "1 week earlier");
    PrefixCancels("vs. ", tail, "1 month earlier");
    PrefixCancels("vs. ", tail, "1 year earlier");
    SingularPhrases();
  }

  lemma SingularPhrases()
    ensures "vs. " + "1 week earlier" == "vs. 1 week earlier"
    ensures "vs. " + "1 month earlier" == "vs. 1 month earlier"
    ensures "vs. " + "1 year earlier" == "vs. 1 year earlier"
  {
  }

  lemma PrefixCancels(p: string, a: string, b: string)
    ensures p + a == p + b <==> a == b
  {
    if p + a == p + b {
      assert a == (p + a)[|p|..] && b == (p + b)[|p|..];
    }
  }

  /** The singular tails, one unit at a time. */
  lemma SingularTails(n: int)
    ensures HeadlineTail(n) == "1 week earlier" <==> 7 <= n <= 10
    ensures HeadlineTail(n) == "1 month earlier" <==> 30 <= n <= 44
    ensures HeadlineTail(n) == "1 year earlier" <==> 365 <= n <= 547
  {
    var t := HeadlineTail(n);
    SingularsDiffer();
    if n < 7 {
      DaysTailDiffers(n);
    } else if n < 30 {
      var w := RoundDiv(n, 7);
      assert w == 1 <==> n <= 10;
      if w != 1 { PluralTailDiffers(w, " weeks earlier"); }
    } else if n < 365 {
      var m := RoundDiv(n, 30);
      assert m == 1 <==> n <= 44;
      if m != 1 { PluralTailDiffers(m, " months earlier"); }
    } else {
      var y := RoundDiv(n, 365);
      assert y == 1 <==> n <= 547;
      if y != 1 { PluralTailDiffers(y, " years earlier"); }
    }
  }

  lemma SingularsDiffer()
    ensures "1 week earlier" != "1 month earlier" && "1 week earlier" != "1 year earlier"
    ensures "1 month earlier" != "1 year earlier"
  {
    assert "1 week earlier"[2] == 'w' && "1 month earlier"[2] == 'm' && "1 year earlier"[2] == 'y';
  }

  /** A "days" headline ends in " days earlier", which no singular form does. */
  lemma DaysTailDiffers(n: int)
    ensures IntToString(n) + " days earlier" != "1 week earlier"
    ensures IntToString(n) + " days earlier" != "1 month earlier"
    ensures IntToString(n) + " days earlier" != "1 year earlier"
  {
    var s := IntToString(n) + " days earlier";
    assert s[|s| - 9] == 's';
  }

  /** A plural headline ends in a different suffix from every singular one. */
  lemma PluralTailDiffers(k: int, unit: string)
    requires unit in {" weeks earlier", " months earlier", " years earlier"}
    ensures IntToString(k) + unit != "1 week earlier"
    ensures IntToString(k) + unit != "1 month earlier"
    ensures IntToString(k) + unit != "1 year earlier"
  {
    var s := IntToString(k) + unit;
    assert s[|s| - 9] == 's';
  }

  /** The three-month and one-year headlines of the dashboard. */
  lemma HeadlineExamples(base: Day, comparison: Day)
    requires comparison == 0
    ensures base == 90 ==> Headline(base, comparison) == "vs. 3 months earlier"
    ensures base == 730 ==> Headline(base, comparison) == "vs. 2 years earlier"
  {
    if base == 90 {
      assert RoundDiv(90, 30) == 3;
      assert IntToString(3) == "3" by { assert NatToString(3) == [DigitChar(3)]; }
      ExamplePhrases();
    } else if base == 730 {
      assert RoundDiv(730, 365) == 2;
      assert IntToString(2) == "2" by { assert NatToString(2) == [DigitChar(2)]; }
      ExamplePhrases();
    }
  }

  lemma ExamplePhrases()
    ensures "vs. " + ("3" + " months earlier") == "vs. 3 months earlier"
    ensures "vs. " + ("2" + " years earlier") == "vs. 2 years earlier"
  {
  }

  /** `(current - previous) / previous * 100` */
  function RelativeChangePercent(current: real, previous: real): (p: real)
    requires previous != 0.0
    ensures current == previous * (1.0 + p / 100.0)
  {
    (current - previous) / previous * 100.0
  }

  /** The change as displayed: a "+" exactly for a rise, then `toFixed(2)` and "%". */
  function ChangeDisplay(p: real, toFixed: real -> string): (r: string)
    ensures p > 0.0 ==> r == "+" + toFixed(p) + "%"
    ensures p <= 0.0 ==> r == toFixed(p) + "%"
  {
    (if p > 0.0 then "+" else "") + toFixed(p) + "%"
  }

  /** The line under the change. */
  function Subtext(code: string, p: real, display: string): string {
    if -0.1 < p < 0.1 then "No material change"
    else if p > 0.0 then code + " stronger by " + display
    else if p < 0.0 then code + " weaker by " + display
    else "N/A"
  }

  /** A change under a tenth of a percent either way is immaterial; any other reads as stronger or weaker. */
  lemma SubtextCases(code: string, p: real, display: string)
    ensures -0.1 < p < 0.1 <==> Subtext(code, p, display) == "No material change"
    ensures p >= 0.1 ==> Subtext(code, p, display) == code + " stronger by " + display
    ensures p <= -0.1 ==> Subtext(code, p, display) == code + " weaker by " + display
    ensures Subtext(code, p, display) != "N/A"
  {
    var s := Subtext(code, p, display);
    if !(-0.1 < p < 0.1) {
      if p > 0.0 {
        assert s[|code|..] == " stronger by " + display;
        assert s[|code| + 1] == 's';
      } else {
        assert s[|code|..] == " weaker by " + display;
        assert s[|code| + 1] == 'w';
      }
    }
  }

  /** JavaScript's `Math.round`: halves round up. */
  function Round(x: real): int {
    (x + 0.5).Floor
  }

  /** `getBackgroundColorShade`: the interpolated shade, rounded to hundreds and clamped. */
  function Shade(relativeChangePercent: real): (r: int)
    ensures 100 <= r <= 700 && r % 100 == 0
  {
    var a := if relativeChangePercent < 0.0 then -relativeChangePercent else relativeChangePercent;
    var raw := (700.0 - 100.0) / (5.0 - 0.01) * (a - 0.01) + 100.0;
    var interpolated := if raw < 0.0 then -raw else raw;
    var rounded := Round(interpolated / 100.0) * 100;
    if rounded > 700 then 700 else if rounded < 100 then 100 else rounded
  }

  /** Changes of 5% or more get the strongest shade, tiny ones the palest. */
  lemma ShadeExtremes(p: real)
    ensures (p >= 5.0 || p <= -5.0) ==> Shade(p) == 700
    ensures -0.01 <= p <= 0.01 ==> Shade(p) == 100
  {
  }

  /** A larger change, in either direction, never gets a paler shade. */
  lemma ShadeMonotone(p: real, q: real)
    requires (if p < 0.0 then -p else p) <= (if q < 0.0 then -q else q)
    ensures Shade(p) <= Shade(q)
  {
    var a := if p < 0.0 then -p else p;
    var b := if q < 0.0 then -q else q;
    var k := (700.0 - 100.0) / (5.0 - 0.01);
    var rawA := k * (a - 0.01) + 100.0;
    var rawB := k * (b - 0.01) + 100.0;
    assert 0.0 < rawA <= rawB by {
      assert k * (b - 0.01) - k * (a - 0.01) == k * (b - a);
    }
    assert (rawA / 100.0 + 0.5).Floor <= (rawB / 100.0 + 0.5).Floor;
  }

  datatype Outline = Gray200 | Tinted(green: bool, shade: int)

  datatype Card = Card(outline: Outline, title: string, changeDisplay: string, subtext: string)

  /** A rate on a date, as the card receives it. */
  datatype DatedRate = DatedRate(rate: real, date: Day)

  datatype Rendered = Rendered(card: Card) | DivisionByZero

  /** `ChangeCard` given the current rate, the comparison date and what the lookup found for it. */
  function Render(fromIsoCode: string, current: DatedRate, comparisonDate: Day, previous: Option<DatedRate>,
                  toFixed: real -> string): (r: Rendered)
    ensures previous.None? ==>
              r == Rendered(Card(Gray200, Headline(current.date, comparisonDate), "N/A", "No data available"))
    ensures r.DivisionByZero? <==> previous.Some? && previous.value.rate == 0.0
    ensures r.Rendered? && previous.Some? ==>
              var p := RelativeChangePercent(current.rate, previous.value.rate);
              && r.card.title == Headline(current.date, previous.value.date)
              && r.card.changeDisplay == ChangeDisplay(p, toFixed)
              && r.card.subtext == Subtext(fromIsoCode, p, r.card.changeDisplay)
              && r.card.outline.Tinted?
              && (r.card.outline.green <==> p >= 0.0)
              && r.card.outline.shade == Shade(p)
              && 100 <= r.card.outline.shade <= 700
  {
    if previous.None? then
      Rendered(Card(Gray200, Headline(current.date, comparisonDate), "N/A", "No data available"))
    else if previous.value.rate == 0.0 then DivisionByZero
    else
      var p := RelativeChangePercent(current.rate, previous.value.rate);
      var display := ChangeDisplay(p, toFixed);
      Rendered(Card(Tinted(p >= 0.0, Shade(p)), Headline(current.date, previous.value.date), display,
                    Subtext(fromIsoCode, p, display)))
  }

  /** The change is non-negative exactly when the rate did not fall, given a positive earlier rate. */
  lemma SignOfChange(current: real, previous: real)
    requires previous != 0.0
    ensures previous > 0.0 ==> (RelativeChangePercent(current, previous) >= 0.0 <==> current >= previous)
  {
    var p := RelativeChangePercent(current, previous);
    if previous > 0.0 {
      assert current - previous == previous * p / 100.0;
    }
  }

  /** With a positive earlier rate the outline is green exactly when the rate did not fall. */
  lemma GreenIffNotFallen(fromIsoCode: string, current: DatedRate, comparisonDate: Day, previous: DatedRate,
                          toFixed: real -> string)
    requires previous.rate > 0.0
    ensures Render(fromIsoCode, current, comparisonDate, Some(previous), toFixed).card.outline.green
            <==> current.rate >= previous.rate
  {
    SignOfChange(current.rate, previous.rate);
  }
}
