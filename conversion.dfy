/** Unit conversion and calendar bucketing applied to every trade row before
    it is aggregated (`conversion` in src/data/data_process.py). */
module Conversion {
  import opened Common

  /** Factors of the closed unit table, keyed by lower-case unit code.
      A dozen is converted by dividing by 0.756. */
  const UnitFactors: map<string, real> := map[
    "kg" := 1.0, "l" := 1.0, "doz" := 1.0 / 0.756, "m3" := 1560.0,
    "t" := 907.185, "kts" := 1.0, "pfl" := 0.789, "gm" := 1000.0]

  /** The factor a quantity reported in `unit` is multiplied by: the table's
      factor for a known unit, in any letter case, and 1 otherwise (a null
      unit or an unknown one leaves the quantity unchanged). */
  function Factor(unit: Option<string>): real {
    if unit.Some? && ToLower(unit.value) in UnitFactors then UnitFactors[ToLower(unit.value)] else 1.0
  }

  /** One `when/then` chain of the conversion: the first matching unit wins. */
  function ConvertQty(qty: real, unit: Option<string>): (r: real)
    ensures r == qty * Factor(unit)
  {
    if unit.None? then qty
    else
      var u := ToLower(unit.value);
      if u == "kg" then qty * 1.0
      else if u == "l" then qty * 1.0
      else if u == "doz" then qty / 0.756
      else if u == "m3" then qty * 1560.0
      else if u == "t" then qty * 907.185
      else if u == "kts" then qty * 1.0
      else if u == "pfl" then qty * 0.789
      else if u == "gm" then qty * 1000.0
      else qty
  }

  /** Matching is case-insensitive: a code converts like its lower-case form. */
  lemma ConvertQtyIgnoresCase(qty: real, unit: string)
    ensures ConvertQty(qty, Some(unit)) == ConvertQty(qty, Some(ToLower(unit)))
  {
    ToLowerIdempotent(unit);
  }

  /** The converted quantity of a row: both quantities, null read as 0,
      converted by their own unit and added. */
  function RowQty(qty1: Option<real>, unit1: Option<string>, qty2: Option<real>, unit2: Option<string>): (q: real)
    ensures q == qty1.GetOr(0.0) * Factor(unit1) + qty2.GetOr(0.0) * Factor(unit2)
  {
    ConvertQty(qty1.GetOr(0.0), unit1) + ConvertQty(qty2.GetOr(0.0), unit2)
  }

  /** A row with both quantities null, or zero, has converted quantity 0. */
  lemma NullQuantitiesConvertToZero(unit1: Option<string>, unit2: Option<string>)
    ensures RowQty(None, unit1, None, unit2) == 0.0
    ensures RowQty(Some(0.0), unit1, Some(0.0), unit2) == 0.0
  {
  }

  /** The quarter column: the source's range tests in order, first match wins.
      Months 7 and 8 satisfy the second test (4..8) and never reach the third
      (7..9); a month outside 1..12 matches none and the cell is null. */
  function Quarter(month: int): (q: Option<int>)
    ensures q.Some? <==> 1 <= month <= 12
    ensures q.Some? ==> 1 <= q.value <= 4
  {
    if 1 <= month <= 3 then Some(1)
    else if 4 <= month <= 8 then Some(2)
    else if 7 <= month <= 9 then Some(3)
    else if 10 <= month <= 12 then Some(4)
    else None
  }

  /** The calendar quarter of a month, as a reference. */
  function CalendarQuarter(month: int): int
    requires 1 <= month <= 12
  {
    (month - 1) / 3 + 1
  }

  /** The quarter column agrees with the calendar quarter for every month
      except July and August, which land in quarter 2; quarter 3 holds
      September alone. */
  lemma QuarterVersusCalendar(month: int)
    requires 1 <= month <= 12
    ensures Quarter(month) == Some(CalendarQuarter(month)) <==> month != 7 && month != 8
    ensures month == 7 || month == 8 ==> Quarter(month) == Some(2)
    ensures Quarter(month) == Some(3) <==> month == 9
  {
  }

  /** The fiscal year: a month after June belongs to the next year's
      fiscal year. */
  function FiscalYear(year: int, month: int): (fy: int)
    ensures fy == year || fy == year + 1
  {
    if month > 6 then year + 1 else year
  }

  /** Fiscal year fy runs from July of year fy-1 through June of year fy. */
  lemma FiscalYearWindow(year: int, month: int, fy: int)
    requires 1 <= month <= 12
    ensures FiscalYear(year, month) == fy <==>
      (year == fy - 1 && 7 <= month) || (year == fy && month <= 6)
  {
  }
}
