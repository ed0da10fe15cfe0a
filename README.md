# Trade data processing and loading (jp-imports), modelled in Dafny

The jp-imports repository holds Puerto Rico external-trade data. It keeps the
data in a small database and turns it into aggregated views.

This project models two core files.

`src/data/data_pull.py` builds the database:

- **`insert_int_jp`** works on the records of the Puerto Rico Planning Board (JP).
  - It normalises them: dates, trade flags, lower-cased units, ten-character commodity codes and the SITC override.
  - It builds six dimension tables (country, SITC, HTS, NAICS, district and unit), each numbered by rank. The agricultural flag is added to the HTS table.
  - It left-joins the dimension ids back onto the records.
  - It creates each table only when it is absent.
- **`insert_int_org`** works on the records of the US Census Bureau (organisation data).
  - It builds the JP tables first, when they are needed.
  - It normalises the records.
  - It left-joins them to the country, HTS and unit tables.
  - It appends the result to `inttradedata`.

`src/data/data_process.py` turns stored rows into views:

- **`process_int_jp` and `process_int_org`** check their arguments and filter the rows. Each is then converted (unit factors, quarter, fiscal year) and aggregated.
- **`process_data`** has sixteen branches, one per time frame and breakdown. Every branch does the same thing with different key columns:
  1. `filter_data` splits the rows into imports and exports, and groups and sums each side.
  2. An outer join matches the two sides.
  3. The keys are coalesced, missing sums are filled with zero, and the rows are sorted.
  4. The net columns are computed.

The model has eight modules:

| module | contents |
|---|---|
| `Common` | Option/Result, dates, ASCII lower-casing, split/join, `zfill`, stable dedup, filter, flat-map |
| `Ranking` | polars' `rank("ordinal")` and default (average) rank |
| `Conversion` | `conversion` |
| `Aggregation` | `filter_data` and one generic branch of `process_data` |
| `Process` | the sixteen-way switch, the time filter and the `process_int_*` entry points |
| `Dimensions` | normalisation and the dimension tables |
| `Enrichment` | the left joins and the fact rows |
| `Store` | the database as a map from table name to rows, the guarded writes, and the class `DataPull`, whose methods update it |

How polars operations are modelled:

- A group-by treats null as a group.
- An outer join never matches a null key to another null key.
- A sort puts nulls first.
- A left join emits one row per matching dimension row. An unmatched or null code gets a null id.

In a few places the code does something other than its names and comments suggest. The model follows the code:

- The quarter expression sends months 7 and 8 to quarter 2.
- The NAICS guard in `process_int_org` tests `time_frame`, not `level`.
- The organisation's commodity code can be shorter than ten characters, because the apostrophe is removed after padding.

## Model

| member | source | states |
|---|---|---|
| Process.KeyColumns | src/data/data_process.py:199-581 | the switch accepts exactly a valid time frame combined with a valid breakdown; the key columns are then the period columns followed by the breakdown columns; any other pair gives the invalid-switch error |
| Process.KeyColumnsInjective | src/data/data_process.py:199-578 | different valid (time frame, level) pairs give different key columns, and no key column is repeated |
| Process.ProcessDataLaws | src/data/data_process.py:180-762 | an invalid (time frame, level) pair gives the invalid-switch error; otherwise the view is sorted by key, its keys are exactly the key tuples of the import and export rows, each row carries its key's import and export sums (for a key with a null cell, the sums of a side it occurs on and zeros for the other), and the net columns are exports minus imports |
| Process.ParseTimeFilter | src/data/data_process.py:68-80 | an empty string means no filter; a string without '+' is one date; exactly one '+' gives a window from its two halves; two or more '+' give the invalid-time-format error |
| Process.ParseWindow | src/data/data_process.py:70-75 | "start+end" parses back to the window (start, end) |
| Process.PrefixError | src/data/data_process.py:85-96 | an empty prefix filter raises the invalid-HTS-code error exactly when the level is "hts" |
| Process.Select | src/data/data_process.py:68-96 | a row is kept exactly when it passes the time filter, the agricultural filter and the prefix filter; nothing is added |
| Process.SelectSnoc | src/data/data_process.py:68-96 | the filters keep the row order and the duplicates: an empty frame selects nothing, and a row appended at the end is appended to the selection exactly when it passes every filter |
| Process.ConvertRowsConcat | src/data/data_process.py:764-829 | conversion is row by row: converting a concatenation is the concatenation of the converted parts, and an empty frame stays empty |
| Process.ProcessInt | src/data/data_process.py:36-178 | errors are raised in the source's order: NAICS guard, then time format, then empty prefix result, then `group`; success is the processed view of the selected, converted rows, and when every check passes the call succeeds |
| Process.ErrorPrecedence | src/data/data_process.py:143-178 | once the guard and the time format pass, the result is the empty-prefix error, else not-implemented for `group`, else the invalid-switch error, else for the organisation a missing naics_id column, else the aggregation of the converted selection |
| Process.OrgHasNoNaicsView | src/data/data_process.py:106-178 | the organisation data has no NAICS breakdown: level "naics" always fails |
| Process.OrgNaicsGuardTestsTimeFrame | src/data/data_process.py:143-146 | the guard fires on time frame "naics"; level "naics" gets past it and fails later on the missing naics_id column |
| Process.SelectAll | src/data/data_process.py:68-96 | with no time filter, no agricultural filter and level "total", every row is kept |
| Process.UnfilteredView | src/data/data_process.py:36-104 | the plain total view is the aggregation of all converted rows |
| Aggregation.GroupSumLaws | src/data/data_process.py:747-761 | grouping gives one row per distinct key tuple of the side, and each row carries the sums of value and quantity over exactly the rows with that key |
| Aggregation.SortByKeyLaws | src/data/data_process.py:208-212 | the sort orders rows by their key with nulls first, and is a permutation of its input |
| Aggregation.AggregateLaws | src/data/data_process.py:200-217 | the view is sorted; each key occurs as often as the outer join implies; a row with a complete key holds the import and export sums of its key, with zero for a missing side, and a row whose key has a null cell holds the sums of a side the key occurs on and zeros for the other; net exports and net quantity are exports minus imports |
| Aggregation.AggregateNullKeyRows | src/data/data_process.py:747-762 | a key with a null cell is never matched by the outer join, so each side it occurs on keeps its own row: one with the import sums and zero exports, one with the export sums and zero imports |
| Aggregation.AggregateCoverage | src/data/data_process.py:200-217 | a key appears in the view exactly when some import or export row has it, and a key with no nulls appears once |
| Aggregation.IgnoredRowsChangeNothing | src/data/data_process.py:747-761 | a row with a null HTS id, or that is neither an import nor an export, does not change the view |
| Aggregation.TwoRowScenario | src/data/data_process.py:200-217 | one import and one export with the same key give one row with both sums and their difference |
| Aggregation.ImportOnlyScenario | src/data/data_process.py:200-217 | an import with no matching export gives a row whose export sums are zero |
| Aggregation.CoalesceWithNulls | src/data/data_process.py:203-207 | coalescing a key with nulls, or with itself, gives the key back |
| Conversion.ConvertQtyIgnoresCase | src/data/data_process.py:779-814 | the unit factor does not depend on the case of the unit name |
| Conversion.RowQty | src/data/data_process.py:778-829 | the quantity is qty_1 times its unit's factor plus qty_2 times its unit's factor, with null quantities read as zero |
| Conversion.NullQuantitiesConvertToZero | src/data/data_process.py:778 | null or zero quantities convert to zero whatever the units |
| Conversion.Quarter | src/data/data_process.py:815-824 | a month from 1 to 12 gets a quarter from 1 to 4, and any other month gets null |
| Conversion.QuarterVersusCalendar | src/data/data_process.py:815-824 | the quarter is the calendar quarter except in July and August, which go to quarter 2; quarter 3 is September alone |
| Conversion.FiscalYear | src/data/data_process.py:825-828 | the fiscal year is the calendar year or the next one |
| Conversion.FiscalYearWindow | src/data/data_process.py:825-828 | fiscal year fy runs from July of fy-1 to June of fy |
| Ranking.OrdinalIsPermutation | src/data/data_pull.py:257-309 | ordinal ranks of n codes are exactly 1..n, each once |
| Ranking.OrdinalMonotone | src/data/data_pull.py:257-309 | a smaller code, or an equal code at an earlier row, gets a smaller ordinal rank |
| Ranking.AverageIsOrdinalWhenDistinct | src/data/data_pull.py:302-304 | with distinct codes the default rank agrees with the ordinal rank |
| Ranking.AverageRankTiesShare | src/data/data_pull.py:302-304 | under the average rank, equal codes always get the same id, wherever they stand |
| Ranking.AverageRankTies | src/data/data_pull.py:302-304 | two worked examples: three equal codes all get id 2 and two equal codes both get id 1, the truncated average of their positions |
| Dimensions.TradeId | src/data/data_pull.py:236 | the trade id is 1 exactly for the flag "i", and 2 otherwise |
| Dimensions.LowerOptIdempotent | src/data/data_pull.py:233-234 | lower-casing a unit again changes nothing, and a null unit stays null |
| Dimensions.JpCommodity | src/data/data_pull.py:235 | a present commodity code is padded to at least ten characters, and a null stays null |
| Dimensions.OrgCommodity | src/data/data_pull.py:124-127 | the organisation's code agrees with the JP padding when it holds no apostrophe, and nulls stay null |
| Dimensions.OrgCommodityCanBeShort | src/data/data_pull.py:124-127 | the apostrophe is removed after padding, so "'12345678" becomes the nine-character "012345678" |
| Dimensions.SitcOverride | src/data/data_pull.py:241-247 | a short description starting with "Civilian" gives SITC 9998, one starting with "-" gives 9999, and otherwise the code is kept |
| Dimensions.PrepareJpLaws | src/data/data_pull.py:225-249 | the prepared rows are exactly the normalised rows with a present commodity code, and no more rows than the input |
| Dimensions.PrepareJpSnoc | src/data/data_pull.py:225-249 | preparation keeps the order: a raw row appended at the end appends its normalised form when its commodity code is present, and nothing otherwise |
| Dimensions.NullCommodityIgnored | src/data/data_pull.py:249 | adding a row with a null commodity code does not change the prepared rows |
| Dimensions.BuildDimLaws | src/data/data_pull.py:252-309 | a dimension holds each distinct non-null selection exactly once, numbered by the rank of its code |
| Dimensions.OrdinalDimIds | src/data/data_pull.py:252-309 | ordinal ids are 1..n, follow the code order, and number equal codes by row order |
| Dimensions.FunctionalCodesDistinct | src/data/data_pull.py:252-309 | when each code comes with one description, the codes of the dimension are distinct |
| Dimensions.AgriListMembers | src/data/data_pull.py:216-221 | a code is on the agricultural list exactly when it is a JSON code zero-filled to four characters; a JSON code that is already four long is listed unchanged |
| Dimensions.HtsDim | src/data/data_pull.py:261-273 | an HTS row is agricultural exactly when its first four characters match a padded JSON code |
| Dimensions.HtsDimIsDim | src/data/data_pull.py:261-270 | the HTS table is the ordinal dimension on the code and descriptions, row for row |
| Dimensions.UnitDimLaws | src/data/data_pull.py:306-309 | the unit table holds each present unit_1 value once |
| Dimensions.DistrictIdsMayRepeat | src/data/data_pull.py:295-304 | two district rows with one code and two descriptions share an id under the default rank |
| Enrichment.MatchesLaws | src/data/data_pull.py:312-332 | the matching ids of a code are the ids of exactly the dimension rows with that code, in row order |
| Enrichment.LookupLaws | src/data/data_pull.py:312-332 | a null or unknown code joins to one null id; a known code joins to its ids, exactly one when codes are distinct |
| Enrichment.JoinLaws | src/data/data_pull.py:312-332 | a left join keeps every row, attaches every matching id, adds no row without an origin, and is one-to-one when the codes are distinct |
| Enrichment.EnrichJpKeepsRows | src/data/data_pull.py:312-332 | the seven JP joins never drop a row |
| Enrichment.EnrichJpExact | src/data/data_pull.py:312-332 | with distinct codes in every dimension, the joins give one row per prepared row, carrying the ids found for its codes |
| Enrichment.BuildJpIgnoresNullCommodity | src/data/data_pull.py:249-351 | a record with a null commodity code changes neither the dimensions nor the facts |
| Enrichment.Unit2OutsideUnit1 | src/data/data_pull.py:306-332 | a unit_2 value that never occurs as unit_1 gets a null unit_2 id |
| Enrichment.NameIds | src/data/data_pull.py:133-135 | the organisation's country lookup holds exactly the country rows that have a name, keyed by name |
| Enrichment.EnrichOrgKeepsRows | src/data/data_pull.py:133-144 | the four organisation joins never drop a row |
| Enrichment.EnrichOrgExact | src/data/data_pull.py:133-158 | with distinct lookup codes, each prepared row gives one fact carrying the ids found for its country name, HTS code and units |
| Enrichment.BuildOrgCount | src/data/data_pull.py:113-158 | the organisation facts number at least the input rows, and exactly as many when the lookup codes are distinct |
| Store.ReadBack | src/data/data_pull.py:99-101 | the country, HTS and unit tables written as records read back as the same dimension rows |
| Store.FillAllLaws | src/data/data_pull.py:354-384 | create-if-absent writes keep existing tables, give each absent table its rows, and add no other table |
| Store.FillAllExisting | src/data/data_pull.py:354-384 | when every table exists, the writes change nothing |
| Store.JpWrites | src/data/data_pull.py:354-384 | the eight JP writes, in source order, to distinct tables, each with rows of its table's kind |
| Store.WriteBackJpLaws | src/data/data_pull.py:354-384 | insert_int_jp keeps every existing table with its rows, makes every JP table exist, and adds no other table |
| Store.WriteBackJpFills | src/data/data_pull.py:354-384 | each absent JP table is created with its built rows: the trade table empty, the country, SITC, HTS, NAICS, district and unit tables with their dimension rows, jptradedata with the facts |
| Store.WriteBackJpIdempotent | src/data/data_pull.py:354-384 | a second insert_int_jp, even from other data, changes nothing |
| Store.WriteBackJpWellTyped | src/data/data_pull.py:354-384 | the writes keep every table holding rows of its own kind |
| Store.StagedLookups | src/data/data_pull.py:98-111 | after the JP build the country, HTS and unit tables exist; on an empty database they are the dimensions just built |
| Store.UpdateRefreshesNothing | src/data/data_pull.py:98-108 | with every JP table present, update=True rebuilds nothing, because each write is guarded by a table check |
| Store.AppendOrgLaws | src/data/data_pull.py:160-162 | appending creates inttradedata when absent, adds the facts at its end, and leaves every other table alone |
| Store.AppendOrgWellTyped | src/data/data_pull.py:160-162 | the append keeps the database well typed |
| Store.DataPull.CreateTable | src/data/data_pull.py:354-384 | creating a table adds it empty, changes nothing else, and keeps the database well typed |
| Store.DataPull.Insert | src/data/data_pull.py:354-384 | inserting rows of the table's kind appends them to it, changes nothing else, and keeps the database well typed |
| Store.DataPull.CreateAndFillIfAbsent | src/data/data_pull.py:354-384 | one guarded write: the table gets the rows only if it was absent, and the database stays well typed |
| Store.DataPull.InsertIntJp | src/data/data_pull.py:212-384 | the new database is the old one with the built JP tables written if absent, and it stays well typed |
| Store.DataPull.WriteJp | src/data/data_pull.py:354-384 | the eight guarded writes, done in source order, give exactly the JP write-back |
| Store.DataPull.AppendInt | src/data/data_pull.py:160-162 | the organisation facts are appended to inttradedata, which is created first if absent |
| Store.DataPull.InsertIntOrg | src/data/data_pull.py:97-162 | the JP tables are built unless jptradedata exists and update is off; the call fails, changing nothing further, when a lookup table is missing; otherwise the enriched facts are appended |

## Left out

- Reading files, the network pulls and the database connection are not modelled. The raw rows, the agricultural JSON list and the stored rows are parameters.
- The table schemas of the DDL are not modelled. A table is a sequence of typed records, and every other table of the database is left out.
- The functions `process_price` and `process_cat` and the price and category views are not part of this model.
- How `process_int_jp` and `process_int_org` load their rows is not modelled. They call `insert_int_jp()` without its file arguments, and it returns nothing. The stored rows those calls stand for are a parameter.
- Casting strings to dates is not modelled, because polars' date parser is not part of this model. It is the `toDate` parameter, and dates built from year and month are built directly.
- Lower-casing only covers ASCII letters. Unicode case mapping is left out.
- polars' lazy evaluation and its parallel, unordered `unique()` are not modelled. The model keeps first occurrences in row order, and that order only decides ordinal ids between rows with equal codes.
- Join validation such as `validate="1:1"` is not modelled. Joins attach every match instead of raising.
- Process.ProcessData: the net columns are computed before the sort, not after. The rows are the same either way.
- The Int64 casts of the ordinal ranks are the identity on these values, so they are not modelled separately. The cast of the district's average rank truncates, and the `Ranking` module models that truncation.
- Exceptions become `Result` values, or the `ok` flag of `InsertIntOrg`. A missing lookup table gives `ok == false` instead of a raise.
- Store.DataPull.WriteJp: the source writes the eight create-if-absent blocks one after another. The model does the same eight writes, in the same order, as one loop over the `JpWrites` list.
- Floating point is modelled as real arithmetic. Rounding in sums, unit factors and averages is not captured.
