/** The entry points `process_int_jp` and `process_int_org` of
    src/data/data_process.py: argument handling (date window, agricultural
    filter, prefix filter on the requested level, the grouping flag), the
    `conversion` of every selected row, and `process_data`, the switch from
    a (time frame, level) pair to the key columns the aggregation engine
    groups by. */
module Process {
  import opened Common
  import opened Conversion
  import opened Aggregation

  // ---------------------------------------------------------------------
  // Inputs

  /** One row of the trade view the entry points filter and aggregate: the
      fact columns with their dimension ids, and the codes and flags the
      filters read. */
  datatype TradeRecord = TradeRecord(
    date: Date, tradeId: int,
    htsId: Option<int>, naicsId: Option<int>, countryId: Option<int>,
    htsCode: Option<string>, naics: Option<string>, country: Option<string>,
    agriProd: Option<bool>,
    data: Option<real>, qty1: Option<real>, unit1: Option<string>, qty2: Option<real>, unit2: Option<string>)

  /** The two entry points differ only in their source table and in the
      checks below. */
  datatype Source = Jp | Org

  /** The exceptions the entry points raise. */
  datatype ProcessError =
    | InvalidTimeFormat                     // ValueError: "Invalid time format ..."
    | InvalidHtsCode(filter: string)        // ValueError: "Invalid HTS code: ..."
    | InvalidNaicsCode(filter: string)      // ValueError: "Invalid NAICS code: ..."
    | InvalidNameCode(filter: string)       // ValueError: "Invalid Name code: ..."
    | InvalidCountryCode(filter: string)    // ValueError: "Invalid Country code: ..."
    | NaicsUnavailable                      // ValueError: "NAICS data is not available ..."
    | NotImplemented                        // NotImplementedError: grouping
    | InvalidSwitch(timeFrame: string, level: string)  // ValueError: "Invalid switch: ..."
    | ColumnNotFound(column: string)        // polars: the column is not in the frame

  // ---------------------------------------------------------------------
  // process_data: the switch

  /** The period key columns of a time frame, if it is one of the four. */
  function PeriodColumns(timeFrame: string): Option<seq<KeyCol>> {
    if timeFrame == "yearly" then Some([Year])
    else if timeFrame == "fiscal" then Some([FiscalYear])
    else if timeFrame == "qrt" then Some([Year, Qrt])
    else if timeFrame == "monthly" then Some([Year, Month])
    else None
  }

  /** The breakdown key column of a level, if it is one of the four. */
  function BreakdownColumns(level: string): Option<seq<KeyCol>> {
    if level == "total" then Some([])
    else if level == "naics" then Some([NaicsId])
    else if level == "hts" then Some([HtsId])
    else if level == "country" then Some([CountryId])
    else None
  }

  /** The sixteen cases of the switch, each naming the key list it passes to
      `filter_data` and sorts by; any other pair is an invalid switch. A
      valid pair's list is its period columns followed by its breakdown
      column. */
  function KeyColumns(timeFrame: string, level: string): (r: Result<seq<KeyCol>, ProcessError>)
    ensures r.Ok? <==> PeriodColumns(timeFrame).Some? && BreakdownColumns(level).Some?
    ensures r.Ok? ==> r.value == PeriodColumns(timeFrame).value + BreakdownColumns(level).value
    ensures r.Err? ==> r.error == InvalidSwitch(timeFrame, level)
  {
    match (timeFrame, level)
    case ("yearly", "total") => Ok([Year])
    case ("yearly", "naics") => Ok([Year, NaicsId])
    case ("yearly", "hts") => Ok([Year, HtsId])
    case ("yearly", "country") => Ok([Year, CountryId])
    case ("fiscal", "total") => Ok([FiscalYear])
    case ("fiscal", "naics") => Ok([FiscalYear, NaicsId])
    case ("fiscal", "hts") => Ok([FiscalYear, HtsId])
    case ("fiscal", "country") => Ok([FiscalYear, CountryId])
    case ("qrt", "total") => Ok([Year, Qrt])
    case ("qrt", "naics") => Ok([Year, Qrt, NaicsId])
    case ("qrt", "hts") => Ok([Year, Qrt, HtsId])
    case ("qrt", "country") => Ok([Year, Qrt, CountryId])
    case ("monthly", "total") => Ok([Year, Month])
    case ("monthly", "naics") => Ok([Year, Month, NaicsId])
    case ("monthly", "hts") => Ok([Year, Month, HtsId])
    case ("monthly", "country") => Ok([Year, Month, CountryId])
    case _ => Err(InvalidSwitch(timeFrame, level))
  }

  /** Different valid pairs give different key lists, and no key list
      repeats a column. */
  lemma KeyColumnsInjective(tf1: string, lv1: string, tf2: string, lv2: string)
    requires KeyColumns(tf1, lv1).Ok? && KeyColumns(tf2, lv2).Ok?
    requires KeyColumns(tf1, lv1) == KeyColumns(tf2, lv2)
    ensures tf1 == tf2 && lv1 == lv2
    ensures Distinct(KeyColumns(tf1, lv1).value)
  {
    var cols := KeyColumns(tf1, lv1).value;
    var p1, p2 := PeriodColumns(tf1).value, PeriodColumns(tf2).value;
    var b1, b2 := BreakdownColumns(lv1).value, BreakdownColumns(lv2).value;
    assert p1 == cols[..|p1|] && p2 == cols[..|p2|];
    assert b1 == cols[|p1|..] && b2 == cols[|p2|..];
  }

  /** `process_data`: the view of the converted rows for a (time frame,
      level) pair, or the invalid-switch error. */
  function ProcessData(timeFrame: string, level: string, base: seq<Fact>): (r: Result<seq<AggRow>, ProcessError>)
    ensures r.Ok? <==> KeyColumns(timeFrame, level).Ok?
    ensures r.Ok? ==> r.value == Aggregate(base, KeyColumns(timeFrame, level).value)
  {
    var cols :- KeyColumns(timeFrame, level);
    Ok(Aggregate(base, cols))
  }

  /** What `process_data` gives a caller: the invalid-switch error for a
      pair outside the switch, and otherwise a view sorted by key whose keys
      are exactly the key tuples of the import and export rows and whose
      rows carry their key's sums and the net columns. */
  lemma ProcessDataLaws(timeFrame: string, level: string, base: seq<Fact>)
    ensures KeyColumns(timeFrame, level).Err? ==> ProcessData(timeFrame, level, base) == Err(InvalidSwitch(timeFrame, level))
    ensures KeyColumns(timeFrame, level).Ok? ==>
      var cols, out := KeyColumns(timeFrame, level).value, ProcessData(timeFrame, level, base).value;
      var imp, exp := Side(base, 1), Side(base, 2);
      && SortedByKey(out)
      && (forall t :: t in KeysOf(out) <==> Occurs(imp, cols, t) || Occurs(exp, cols, t))
      && (forall r | r in out :: RowLaw(r, imp, exp, cols))
      && (forall r | r in out :: r.netExports == r.exports - r.imports && r.netQty == r.exportsQty - r.importsQty)
  {
    if KeyColumns(timeFrame, level).Ok? {
      var cols := KeyColumns(timeFrame, level).value;
      AggregateLaws(base, cols);
      forall t ensures t in KeysOf(Aggregate(base, cols)) <==> Occurs(Side(base, 1), cols, t) || Occurs(Side(base, 2), cols, t) {
        AggregateCoverage(base, cols, t);
      }
    }
  }

  // ---------------------------------------------------------------------
  // The date argument

  /** What the `datetime` argument asks for: every row, one day, or an
      inclusive window. */
  datatype TimeFilter = NoFilter | On(day: string) | Between(start: string, end: string)

  /** The parse of `datetime`: empty is no filter; split on '+', two parts
      are a window and one part is a single day; more parts are an error. */
  function ParseTimeFilter(datetime: string): (r: Result<TimeFilter, ProcessError>)
    ensures datetime == [] ==> r == Ok(NoFilter)
    ensures datetime != [] && '+' !in datetime ==> r == Ok(On(datetime))
    ensures r.Ok? && r.value.Between? <==> Occurrences(datetime, '+') == 1
    ensures r.Ok? && r.value.Between? ==>
      datetime == r.value.start + "+" + r.value.end && '+' !in r.value.start && '+' !in r.value.end
    ensures r.Err? <==> Occurrences(datetime, '+') >= 2
    ensures r.Err? ==> r.error == InvalidTimeFormat
  {
    OccurrencesZero(datetime, '+');
    if datetime == [] then Ok(NoFilter)
    else
      var parts := Split(datetime, '+');
      JoinSplit(datetime, '+');
      if |parts| == 2 then
        assert Join(parts, '+') == parts[0] + "+" + Join(parts[1..], '+');
        Ok(Between(parts[0], parts[1]))
      else if |parts| == 1 then Ok(On(datetime))
      else Err(InvalidTimeFormat)
  }

  /** A window written out as "start+end" is parsed back into that window. */
  lemma ParseWindow(start: string, end: string)
    requires '+' !in start && '+' !in end
    ensures ParseTimeFilter(start + "+" + end) == Ok(Between(start, end))
  {
    SplitJoin([start, end], '+');
    assert Join([start, end], '+') == start + "+" + end by {
      assert [start, end][1..] == [end];
    }
  }

  /** Whether a row's day passes the date filter; the bounds are cast to
      days by the caller-supplied `toDate`. */
  predicate InWindow(tf: TimeFilter, toDate: string -> Date, d: Date) {
    match tf
    case NoFilter => true
    case On(day) => d == toDate(day)
    case Between(start, end) => DateLeq(toDate(start), d) && DateLeq(d, toDate(end))
  }

  // ---------------------------------------------------------------------
  // Filters and the prefix check

  /** A nullable code starts with the prefix; a null code never does. */
  predicate HasPrefix(code: Option<string>, prefix: string) {
    code.Some? && StartsWith(code.value, prefix)
  }

  /** Whether the level is one the entry point filters by prefix: hts and
      country for both, naics for the JP data only. */
  predicate PrefixLevel(src: Source, level: string) {
    level == "hts" || level == "country" || (src == Jp && level == "naics")
  }

  /** Whether a row passes the prefix filter of the level. */
  predicate LevelMatch(src: Source, level: string, levelFilter: string, r: TradeRecord) {
    if level == "hts" then HasPrefix(r.htsCode, levelFilter)
    else if level == "naics" && src == Jp then HasPrefix(r.naics, levelFilter)
    else if level == "country" then HasPrefix(r.country, levelFilter)
    else true
  }

  /** The error an empty prefix filter raises. */
  function PrefixError(src: Source, level: string, levelFilter: string): (e: ProcessError)
    requires PrefixLevel(src, level)
    ensures e.InvalidHtsCode? <==> level == "hts"
  {
    if level == "hts" then InvalidHtsCode(levelFilter)
    else if level == "naics" then InvalidNaicsCode(levelFilter)
    else if src == Jp then InvalidNameCode(levelFilter)
    else InvalidCountryCode(levelFilter)
  }

  /** Whether a row survives every filter of the entry point. */
  predicate Keeps(src: Source, tf: TimeFilter, toDate: string -> Date, agricultureFilter: bool,
                  level: string, levelFilter: string, r: TradeRecord) {
    && InWindow(tf, toDate, r.date)
    && (agricultureFilter ==> r.agriProd == Some(true))
    && LevelMatch(src, level, levelFilter, r)
  }

  /** The date filter, then the agricultural filter (a null flag does not
      pass), then the prefix filter of the level. */
  function Select(src: Source, rows: seq<TradeRecord>, tf: TimeFilter, toDate: string -> Date,
                  agricultureFilter: bool, level: string, levelFilter: string): (sel: seq<TradeRecord>)
    ensures forall x :: x in sel <==> x in rows && Keeps(src, tf, toDate, agricultureFilter, level, levelFilter, x)
    ensures |sel| <= |rows|
  {
    var dated := Filter(rows, (x: TradeRecord) => InWindow(tf, toDate, x.date));
    var agri := if agricultureFilter then Filter(dated, (x: TradeRecord) => x.agriProd == Some(true)) else dated;
    Filter(agri, (x: TradeRecord) => LevelMatch(src, level, levelFilter, x))
  }

  /** The selection works row by row and keeps the rows in order,
      duplicates included: no row selects nothing, and a row added at the
      end is selected exactly when it passes every filter. */
  lemma SelectSnoc(src: Source, rows: seq<TradeRecord>, x: TradeRecord, tf: TimeFilter, toDate: string -> Date,
                   agricultureFilter: bool, level: string, levelFilter: string)
    ensures Select(src, [], tf, toDate, agricultureFilter, level, levelFilter) == []
    ensures Select(src, rows + [x], tf, toDate, agricultureFilter, level, levelFilter)
      == Select(src, rows, tf, toDate, agricultureFilter, level, levelFilter)
         + (if Keeps(src, tf, toDate, agricultureFilter, level, levelFilter, x) then [x] else [])
  {
    var pd := (x: TradeRecord) => InWindow(tf, toDate, x.date);
    var pa := (x: TradeRecord) => x.agriProd == Some(true);
    var pl := (x: TradeRecord) => LevelMatch(src, level, levelFilter, x);
    FilterConcat(rows, [x], pd);
    FilterSingleton(x, pd);
    var dated, dx := Filter(rows, pd), Filter([x], pd);
    FilterConcat(dated, dx, pa);
    FilterSingleton(x, pa);
    var agri := if agricultureFilter then Filter(dated, pa) else dated;
    var ax := if agricultureFilter then Filter(dx, pa) else dx;
    FilterConcat(agri, ax, pl);
    FilterSingleton(x, pl);
  }

  // ---------------------------------------------------------------------
  // conversion

  /** One row after `conversion`: the month's quarter and fiscal year, and
      both quantities converted and added. */
  function ConvertRow(r: TradeRecord): (f: Fact)
    ensures f.qty == RowQty(r.qty1, r.unit1, r.qty2, r.unit2)
    ensures f.qrt == Quarter(r.date.month) && f.fiscalYear == Conversion.FiscalYear(r.date.year, r.date.month)
    ensures f.year == r.date.year && f.month == r.date.month && f.tradeId == r.tradeId && f.data == r.data
    ensures f.htsId == r.htsId && f.naicsId == r.naicsId && f.countryId == r.countryId
  {
    Fact(r.date.year, r.date.month, Conversion.FiscalYear(r.date.year, r.date.month), Quarter(r.date.month),
         r.tradeId, r.htsId, r.naicsId, r.countryId, r.data, RowQty(r.qty1, r.unit1, r.qty2, r.unit2))
  }

  function ConvertRows(rows: seq<TradeRecord>): (fs: seq<Fact>)
    ensures |fs| == |rows|
    ensures forall i | 0 <= i < |rows| :: fs[i] == ConvertRow(rows[i])
  {
    seq(|rows|, i requires 0 <= i < |rows| => ConvertRow(rows[i]))
  }

  /** Conversion works row by row: converting a concatenation converts
      each part, so no row's conversion depends on another row. */
  lemma ConvertRowsConcat(a: seq<TradeRecord>, b: seq<TradeRecord>)
    ensures ConvertRows(a + b) == ConvertRows(a) + ConvertRows(b)
    ensures ConvertRows([]) == []
  {
    assert forall i | 0 <= i < |a + b| :: (a + b)[i] == if i < |a| then a[i] else b[i - |a|];
  }

  // ---------------------------------------------------------------------
  // The entry points

  /** `process_int_jp` (src == Jp) and `process_int_org` (src == Org) over
      the given rows: the checks in the order the source makes them, then
      `process_data` on the converted selection. */
  function ProcessInt(src: Source, rows: seq<TradeRecord>, level: string, timeFrame: string,
                      datetime: string, agricultureFilter: bool, group: bool, levelFilter: string,
                      toDate: string -> Date): (r: Result<seq<AggRow>, ProcessError>)
    // the organisation's NAICS guard tests the time frame, and comes first
    ensures src == Org && timeFrame == "naics" ==> r == Err(NaicsUnavailable)
    ensures !(src == Org && timeFrame == "naics") && Occurrences(datetime, '+') >= 2 ==> r == Err(InvalidTimeFormat)
    // a prefix filter that leaves nothing is an error, whatever the switch
    ensures r.Ok? ==> !PrefixLevel(src, level) || Select(src, rows, ParseTimeFilter(datetime).value, toDate, agricultureFilter, level, levelFilter) != []
    // grouping is never carried out
    ensures group ==> r.Err?
    ensures r.Ok? ==>
      && ParseTimeFilter(datetime).Ok?
      && KeyColumns(timeFrame, level).Ok?
      && (src == Org ==> NaicsId !in KeyColumns(timeFrame, level).value)
      && r.value == Aggregate(ConvertRows(Select(src, rows, ParseTimeFilter(datetime).value, toDate,
                                                 agricultureFilter, level, levelFilter)),
                              KeyColumns(timeFrame, level).value)
    // and when every check passes, the call succeeds
    ensures !(src == Org && timeFrame == "naics") && ParseTimeFilter(datetime).Ok? && !group &&
      (var sel := Select(src, rows, ParseTimeFilter(datetime).value, toDate, agricultureFilter, level, levelFilter);
       !PrefixLevel(src, level) || sel != []) &&
      KeyColumns(timeFrame, level).Ok? && !(src == Org && NaicsId in KeyColumns(timeFrame, level).value)
      ==> r.Ok?
  {
    if src == Org && timeFrame == "naics" then Err(NaicsUnavailable)
    else
      var tf :- ParseTimeFilter(datetime);
      var sel := Select(src, rows, tf, toDate, agricultureFilter, level, levelFilter);
      if PrefixLevel(src, level) && sel == [] then Err(PrefixError(src, level, levelFilter))
      else
        var base := ConvertRows(sel);
        if group then Err(NotImplemented)
        else if src == Org && KeyColumns(timeFrame, level).Ok? && NaicsId in KeyColumns(timeFrame, level).value then
          Err(ColumnNotFound("naics_id"))
        else ProcessData(timeFrame, level, base)
  }

  /** The checks that come before the switch win over it: a prefix filter
      that leaves no row reports a bad code even when the (time frame,
      level) pair is invalid or `group` is set, and `group` is reported
      before an invalid pair. */
  lemma ErrorPrecedence(src: Source, rows: seq<TradeRecord>, level: string, timeFrame: string,
                        datetime: string, agricultureFilter: bool, group: bool, levelFilter: string,
                        toDate: string -> Date)
    requires !(src == Org && timeFrame == "naics")
    requires Occurrences(datetime, '+') < 2
    ensures var r := ProcessInt(src, rows, level, timeFrame, datetime, agricultureFilter, group, levelFilter, toDate);
      var sel := Select(src, rows, ParseTimeFilter(datetime).value, toDate, agricultureFilter, level, levelFilter);
      && (PrefixLevel(src, level) && sel == [] ==> r == Err(PrefixError(src, level, levelFilter)))
      && (group && (!PrefixLevel(src, level) || sel != []) ==> r == Err(NotImplemented))
      && (!group && (!PrefixLevel(src, level) || sel != []) && KeyColumns(timeFrame, level).Err? ==>
            r == Err(InvalidSwitch(timeFrame, level)))
      && (!group && (!PrefixLevel(src, level) || sel != []) && KeyColumns(timeFrame, level).Ok? &&
          src == Org && NaicsId in KeyColumns(timeFrame, level).value ==>
            r == Err(ColumnNotFound("naics_id")))
      && (!group && (!PrefixLevel(src, level) || sel != []) && KeyColumns(timeFrame, level).Ok? &&
          !(src == Org && NaicsId in KeyColumns(timeFrame, level).value) ==>
            r == Ok(Aggregate(ConvertRows(sel), KeyColumns(timeFrame, level).value)))
  {
  }

  /** For the organisation data a naics view is never produced: either the
      guard (time frame "naics") or the missing naics_id column stops it. */
  lemma OrgHasNoNaicsView(rows: seq<TradeRecord>, timeFrame: string, datetime: string,
                          agricultureFilter: bool, levelFilter: string, toDate: string -> Date)
    ensures ProcessInt(Org, rows, "naics", timeFrame, datetime, agricultureFilter, false, levelFilter, toDate).Err?
  {
  }

  /** The NAICS guard of the organisation entry point tests the time frame,
      not the level: a "naics" time frame is refused with the NAICS message
      whatever the level, while the level "naics" passes the guard. */
  lemma OrgNaicsGuardTestsTimeFrame(rows: seq<TradeRecord>, level: string, toDate: string -> Date)
    ensures ProcessInt(Org, rows, level, "naics", "", false, false, "", toDate) == Err(NaicsUnavailable)
    ensures ProcessInt(Org, rows, "naics", "yearly", "", false, false, "", toDate) == Err(ColumnNotFound("naics_id"))
  {
  }

  /** With the date and agricultural filters off and the level "total",
      every row is selected. */
  lemma SelectAll(src: Source, rows: seq<TradeRecord>, toDate: string -> Date)
    ensures Select(src, rows, NoFilter, toDate, false, "total", "") == rows
  {
    FilterAll(rows, (x: TradeRecord) => InWindow(NoFilter, toDate, x.date));
    FilterAll(rows, (x: TradeRecord) => LevelMatch(src, "total", "", x));
  }

  /** With no prefix level and nothing to filter, a valid switch yields
      the view of all rows, every one of them converted. */
  lemma UnfilteredView(src: Source, rows: seq<TradeRecord>, timeFrame: string, toDate: string -> Date)
    requires KeyColumns(timeFrame, "total").Ok?
    ensures ProcessInt(src, rows, "total", timeFrame, "", false, false, "", toDate)
      == Ok(Aggregate(ConvertRows(rows), KeyColumns(timeFrame, "total").value))
  {
    SelectAll(src, rows, toDate);
    assert ParseTimeFilter("") == Ok(NoFilter);
  }
}
