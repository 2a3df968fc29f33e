/**
  Calendar dates as day numbers: day 0 is 1970-01-01 of the proleptic
  Gregorian calendar, one more per calendar day. The conversion to
  (year, month, day) is the usual era-based one; `IsoDate` renders the
  complete extended representation of ISO 8601 ("YYYY-MM-DD").
*/
module Dates {
  import opened Common

  type Day = int

  datatype Civil = Civil(year: int, month: int, day: int)

  /** Day number of a civil date (month 1..12, day 1..31). */
  function DaysFromCivil(y: int, m: int, d: int): Day {
    var y' := if m <= 2 then y - 1 else y;
    var era := y' / 400;
    var yoe := y' - era * 400;
    var mp := if m > 2 then m - 3 else m + 9;
    var doy := (153 * mp + 2) / 5 + d - 1;
    var doe := yoe * 365 + yoe / 4 - yoe / 100 + doy;
    era * 146097 + doe - 719468
  }

  /** Civil date of a day number. */
  function CivilFromDays(n: Day): Civil {
    var z := n + 719468;
    var era := z / 146097;
    var doe := z - era * 146097;
    var yoe := (doe - doe / 1460 + doe / 36524 - doe / 146096) / 365;
    var y := yoe + era * 400;
    var doy := doe - (365 * yoe + yoe / 4 - yoe / 100);
    var mp := (5 * doy + 2) / 153;
    var d := doy - (153 * mp + 2) / 5 + 1;
    var m := if mp < 10 then mp + 3 else mp - 9;
    Civil(if m <= 2 then y + 1 else y, m, d)
  }

  /** Decimal digits of n, left-padded with zeros to at least `width`. */
  function PadNat(n: nat, width: nat): (s: string)
    ensures |s| >= width
  {
    var digits := NatToString(n);
    if |digits| >= width then digits else seq(width - |digits|, _ => '0') + digits
  }

  /** ISO 8601 calendar date, complete extended representation. */
  function IsoDate(n: Day): string {
    var c := CivilFromDays(n);
    var year := if c.year >= 0 then PadNat(c.year, 4) else "-" + PadNat(-c.year, 4);
    year + "-" + PadNat(if c.month >= 0 then c.month else 0, 2)
         + "-" + PadNat(if c.day >= 0 then c.day else 0, 2)
  }

  /** Day 0 is 1970-01-01, both ways. */
  lemma EpochIsDayZero(d: Day)
    requires d == 0
    ensures DaysFromCivil(1970, 1, 1) == d
    ensures IsoDate(d) == "1970-01-01"
  {
    EpochFromCivil();
    CivilOfEpoch(d);
    EpochDigits();
    assert "1970" + "-" + "01" + "-" + "01" == "1970-01-01";
  }

  lemma EpochFromCivil()
    ensures DaysFromCivil(1970, 1, 1) == 0
  {
    assert 1969 / 400 == 4;
    assert (153 * 10 + 2) / 5 == 306;
    assert 369 / 4 == 92 && 369 / 100 == 3;
  }

  lemma CivilOfEpoch(d: Day)
    requires d == 0
    ensures CivilFromDays(d) == Civil(1970, 1, 1)
  {
    assert 719468 / 146097 == 4;
    assert 135080 / 1460 == 92 && 135080 / 36524 == 3 && 135080 / 146096 == 0;
    assert 134991 / 365 == 369;
    assert 369 / 4 == 92 && 369 / 100 == 3;
    assert (5 * 306 + 2) / 153 == 10;
    assert (153 * 10 + 2) / 5 == 306;
  }

  lemma EpochDigits()
    ensures PadNat(1970, 4) == "1970" && PadNat(1, 2) == "01"
  {
    assert NatToString(1970) == "1970";
    assert NatToString(1) == "1";
  }
}
