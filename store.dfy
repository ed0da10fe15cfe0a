/** The database writes of `DataPull` in src/data/data_pull.py. The database
    is a map from table name to its rows; `insert_int_jp` creates and fills
    each reference table and jptradedata only when that table is absent, and
    `insert_int_org` reads the HTS, unit and country tables back, joins the
    organisation's rows with them and appends the result to inttradedata. */
module Store {
  import opened Common
  import opened Dimensions
  import opened Enrichment

  /** One stored row, tagged with the kind of table it belongs to. */
  datatype Rec =
    | CountryRec(country: DimRow<int, Desc>)
    | SitcRec(sitc: DimRow<int, (Desc, Desc)>)
    | HtsRec(hts: HtsEntry)
    | NaicsRec(naics: DimRow<string, Desc>)
    | DistrictRec(district: DimRow<int, Desc>)
    | UnitRec(unit: DimRow<string, ()>)
    | JpRec(jp: JpFact)
    | IntRec(org: OrgFact)

  /** The tables this model writes and reads (the database's other tables
      play no part in these two operations). */
  datatype TableName =
    | TradeTable | CountryTable | SitcTable | HtsTable | NaicsTable
    | DistrictTable | UnitTable | JpTradeData | IntTradeData

  type Db = map<TableName, seq<Rec>>

  /** The tables `insert_int_jp` may write, in the order it tests them. */
  const JpTables: seq<TableName> := [TradeTable, CountryTable, SitcTable, HtsTable,
                                  NaicsTable, DistrictTable, UnitTable, JpTradeData]

  /** The kind of row a named table holds (the trade table holds none). */
  predicate Fits(name: TableName, r: Rec) {
    match name
    case TradeTable => false
    case CountryTable => r.CountryRec?
    case SitcTable => r.SitcRec?
    case HtsTable => r.HtsRec?
    case NaicsTable => r.NaicsRec?
    case DistrictTable => r.DistrictRec?
    case UnitTable => r.UnitRec?
    case JpTradeData => r.JpRec?
    case IntTradeData => r.IntRec?
  }

  predicate AllFit(name: TableName, rs: seq<Rec>) {
    forall i | 0 <= i < |rs| :: Fits(name, rs[i])
  }

  /** Every table holds rows of its own kind only. */
  predicate WellTyped(db: Db) {
    forall name | name in db :: AllFit(name, db[name])
  }

  // ---------------------------------------------------------------------
  // Table contents as stored rows, and read back

  function CountryRecs(d: seq<DimRow<int, Desc>>): (rs: seq<Rec>)
    ensures |rs| == |d| && AllFit(CountryTable, rs)
    ensures forall i | 0 <= i < |d| :: rs[i] == CountryRec(d[i])
  {
    seq(|d|, i requires 0 <= i < |d| => CountryRec(d[i]))
  }

  function SitcRecs(d: seq<DimRow<int, (Desc, Desc)>>): (rs: seq<Rec>)
    ensures |rs| == |d| && AllFit(SitcTable, rs)
    ensures forall i | 0 <= i < |d| :: rs[i] == SitcRec(d[i])
  {
    seq(|d|, i requires 0 <= i < |d| => SitcRec(d[i]))
  }

  function HtsRecs(d: seq<HtsEntry>): (rs: seq<Rec>)
    ensures |rs| == |d| && AllFit(HtsTable, rs)
    ensures forall i | 0 <= i < |d| :: rs[i] == HtsRec(d[i])
  {
    seq(|d|, i requires 0 <= i < |d| => HtsRec(d[i]))
  }

  function NaicsRecs(d: seq<DimRow<string, Desc>>): (rs: seq<Rec>)
    ensures |rs| == |d| && AllFit(NaicsTable, rs)
    ensures forall i | 0 <= i < |d| :: rs[i] == NaicsRec(d[i])
  {
    seq(|d|, i requires 0 <= i < |d| => NaicsRec(d[i]))
  }

  function DistrictRecs(d: seq<DimRow<int, Desc>>): (rs: seq<Rec>)
    ensures |rs| == |d| && AllFit(DistrictTable, rs)
    ensures forall i | 0 <= i < |d| :: rs[i] == DistrictRec(d[i])
  {
    seq(|d|, i requires 0 <= i < |d| => DistrictRec(d[i]))
  }

  function UnitRecs(d: seq<DimRow<string, ()>>): (rs: seq<Rec>)
    ensures |rs| == |d| && AllFit(UnitTable, rs)
    ensures forall i | 0 <= i < |d| :: rs[i] == UnitRec(d[i])
  {
    seq(|d|, i requires 0 <= i < |d| => UnitRec(d[i]))
  }

  function JpRecs(fs: seq<JpFact>): (rs: seq<Rec>)
    ensures |rs| == |fs| && AllFit(JpTradeData, rs)
    ensures forall i | 0 <= i < |fs| :: rs[i] == JpRec(fs[i])
  {
    seq(|fs|, i requires 0 <= i < |fs| => JpRec(fs[i]))
  }

  function IntRecs(fs: seq<OrgFact>): (rs: seq<Rec>)
    ensures |rs| == |fs| && AllFit(IntTradeData, rs)
    ensures forall i | 0 <= i < |fs| :: rs[i] == IntRec(fs[i])
  {
    seq(|fs|, i requires 0 <= i < |fs| => IntRec(fs[i]))
  }

  /** `conn.table(...).to_polars()`: the rows of one kind read back. */
  function CountryOf(rs: seq<Rec>): seq<DimRow<int, Desc>> {
    if rs == [] then []
    else (if rs[0].CountryRec? then [rs[0].country] else []) + CountryOf(rs[1..])
  }

  function HtsOf(rs: seq<Rec>): seq<HtsEntry> {
    if rs == [] then []
    else (if rs[0].HtsRec? then [rs[0].hts] else []) + HtsOf(rs[1..])
  }

  function UnitOf(rs: seq<Rec>): seq<DimRow<string, ()>> {
    if rs == [] then []
    else (if rs[0].UnitRec? then [rs[0].unit] else []) + UnitOf(rs[1..])
  }

  /** Reading a table back gives exactly what was written into it. */
  lemma {:induction false} ReadBack(c: seq<DimRow<int, Desc>>, h: seq<HtsEntry>, u: seq<DimRow<string, ()>>)
    ensures CountryOf(CountryRecs(c)) == c
    ensures HtsOf(HtsRecs(h)) == h
    ensures UnitOf(UnitRecs(u)) == u
    decreases |c| + |h| + |u|
  {
    if c != [] {
      ReadBack(c[1..], [], []);
      assert CountryRecs(c)[1..] == CountryRecs(c[1..]);
    }
    if h != [] {
      ReadBack([], h[1..], []);
      assert HtsRecs(h)[1..] == HtsRecs(h[1..]);
    }
    if u != [] {
      ReadBack([], [], u[1..]);
      assert UnitRecs(u)[1..] == UnitRecs(u[1..]);
    }
  }

  // ---------------------------------------------------------------------
  // The writes, as functions of the database

  /** `if name not in list_tables(): init_…_table(); insert(name, rows)`. */
  function CreateAndFill(db: Db, name: TableName, rs: seq<Rec>): Db {
    if name in db then db else db[name := rs]
  }

  /** One guarded write: a table and the rows it gets if absent. */
  datatype Write = Write(name: TableName, rows: seq<Rec>)

  /** A run of guarded writes, in order. */
  function FillAll(db: Db, ws: seq<Write>): Db
    decreases |ws|
  {
    if ws == [] then db else FillAll(CreateAndFill(db, ws[0].name, ws[0].rows), ws[1..])
  }

  predicate DistinctNames(ws: seq<Write>) {
    forall i, j | 0 <= i < j < |ws| :: ws[i].name != ws[j].name
  }

  /** Guarded writes to distinct tables: an existing table keeps its rows,
      an absent one gets its write's rows, and no other table appears. */
  lemma {:induction false} FillAllLaws(db: Db, ws: seq<Write>)
    requires DistinctNames(ws)
    ensures var r := FillAll(db, ws);
      && (forall n | n in db :: n in r && r[n] == db[n])
      && (forall i | 0 <= i < |ws| :: ws[i].name in r && (ws[i].name !in db ==> r[ws[i].name] == ws[i].rows))
      && (forall n | n in r :: n in db || exists i | 0 <= i < |ws| :: ws[i].name == n)
    decreases |ws|
  {
    if ws != [] {
      var d := CreateAndFill(db, ws[0].name, ws[0].rows);
      FillAllLaws(d, ws[1..]);
      var r := FillAll(db, ws);
      forall i | 0 <= i < |ws| ensures ws[i].name in r && (ws[i].name !in db ==> r[ws[i].name] == ws[i].rows) {
        if i > 0 { assert ws[1..][i-1] == ws[i]; }
      }
      forall n | n in r ensures n in db || exists i | 0 <= i < |ws| :: ws[i].name == n {
        if n !in d {
          var i :| 0 <= i < |ws[1..]| && ws[1..][i].name == n;
          assert ws[i+1].name == n;
        }
      }
    }
  }

  /** Guarded writes to tables that all exist change nothing. */
  lemma {:induction false} FillAllExisting(db: Db, ws: seq<Write>)
    requires forall i | 0 <= i < |ws| :: ws[i].name in db
    ensures FillAll(db, ws) == db
    decreases |ws|
  {
    if ws != [] {
      assert forall i | 0 <= i < |ws[1..]| :: ws[1..][i] == ws[i+1];
      FillAllExisting(db, ws[1..]);
    }
  }

  /** Guarded writes of rows that fit their tables keep the database well
      typed. */
  lemma {:induction false} FillAllWellTyped(db: Db, ws: seq<Write>)
    requires WellTyped(db)
    requires forall i | 0 <= i < |ws| :: AllFit(ws[i].name, ws[i].rows)
    ensures WellTyped(FillAll(db, ws))
    decreases |ws|
  {
    if ws != [] {
      assert forall i | 0 <= i < |ws[1..]| :: ws[1..][i] == ws[i+1];
      FillAllWellTyped(CreateAndFill(db, ws[0].name, ws[0].rows), ws[1..]);
    }
  }

  /** Unfolding the run one write at a time. */
  lemma FillAllStep(db: Db, ws: seq<Write>, k: nat)
    requires k < |ws|
    ensures FillAll(db, ws[k..]) == FillAll(CreateAndFill(db, ws[k].name, ws[k].rows), ws[k+1..])
  {
    assert ws[k..][0] == ws[k] && ws[k..][1..] == ws[k+1..];
  }

  /** The writes of `insert_int_jp`, in the source's order: the trade table
      (created empty), the six reference tables and jptradedata. */
  function JpWrites(b: JpBuild): (ws: seq<Write>)
    ensures |ws| == |JpTables| && DistinctNames(ws)
    ensures forall i | 0 <= i < |ws| :: ws[i].name == JpTables[i] && AllFit(ws[i].name, ws[i].rows)
  {
    [Write(TradeTable, []),
     Write(CountryTable, CountryRecs(b.dims.country)),
     Write(SitcTable, SitcRecs(b.dims.sitc)),
     Write(HtsTable, HtsRecs(b.dims.hts)),
     Write(NaicsTable, NaicsRecs(b.dims.naics)),
     Write(DistrictTable, DistrictRecs(b.dims.district)),
     Write(UnitTable, UnitRecs(b.dims.unit)),
     Write(JpTradeData, JpRecs(b.facts))]
  }

  function WriteBackJp(db: Db, b: JpBuild): (r: Db) {
    FillAll(db, JpWrites(b))
  }

  /** Guarded writes to the tables `names`, one each, keep every existing
      table, create every named one and no other. */
  lemma FillAllDomain(db: Db, ws: seq<Write>, names: seq<TableName>)
    requires |ws| == |names| && DistinctNames(ws)
    requires forall i | 0 <= i < |ws| :: ws[i].name == names[i]
    ensures var r := FillAll(db, ws);
      && (forall n | n in db :: n in r && r[n] == db[n])
      && (forall n | n in names :: n in r)
      && (forall n | n in r :: n in db || n in names)
      && (forall i | 0 <= i < |ws| :: names[i] !in db ==> r[names[i]] == ws[i].rows)
  {
    FillAllLaws(db, ws);
    forall n | n in names ensures n in FillAll(db, ws) {
      var i :| 0 <= i < |names| && names[i] == n;
      assert ws[i].name == n;
    }
    forall n | n in FillAll(db, ws) ensures n in db || n in names {
      if n !in db {
        var i :| 0 <= i < |ws| && ws[i].name == n;
        assert names[i] == n;
      }
    }
  }

  /** What `insert_int_jp` leaves in the database: every table it writes
      exists, an existing table keeps exactly its rows, and no other table
      appears. */
  lemma WriteBackJpLaws(db: Db, b: JpBuild)
    ensures var r := WriteBackJp(db, b);
      && (forall n | n in db :: n in r && r[n] == db[n])
      && (forall n | n in JpTables :: n in r)
      && (forall n | n in r :: n in db || n in JpTables)
  {
    FillAllDomain(db, JpWrites(b), JpTables);
  }

  /** Each JP table that was absent gets what was built: the trade table
      nothing, the six dimensions their rows and jptradedata the facts. */
  lemma WriteBackJpFills(db: Db, b: JpBuild)
    ensures var r := WriteBackJp(db, b);
      && (TradeTable !in db ==> TradeTable in r && r[TradeTable] == [])
      && (CountryTable !in db ==> CountryTable in r && r[CountryTable] == CountryRecs(b.dims.country))
      && (SitcTable !in db ==> SitcTable in r && r[SitcTable] == SitcRecs(b.dims.sitc))
      && (HtsTable !in db ==> HtsTable in r && r[HtsTable] == HtsRecs(b.dims.hts))
      && (NaicsTable !in db ==> NaicsTable in r && r[NaicsTable] == NaicsRecs(b.dims.naics))
      && (DistrictTable !in db ==> DistrictTable in r && r[DistrictTable] == DistrictRecs(b.dims.district))
      && (UnitTable !in db ==> UnitTable in r && r[UnitTable] == UnitRecs(b.dims.unit))
      && (JpTradeData !in db ==> JpTradeData in r && r[JpTradeData] == JpRecs(b.facts))
  {
    var ws := JpWrites(b);
    FillAllDomain(db, ws, JpTables);
    assert ws[0].rows == [] && ws[1].rows == CountryRecs(b.dims.country);
    assert ws[2].rows == SitcRecs(b.dims.sitc) && ws[3].rows == HtsRecs(b.dims.hts);
    assert ws[4].rows == NaicsRecs(b.dims.naics) && ws[5].rows == DistrictRecs(b.dims.district);
    assert ws[6].rows == UnitRecs(b.dims.unit);
    assert ws[7].rows == JpRecs(b.facts);
  }

  /** Running `insert_int_jp` again changes nothing, whatever the second
      run builds: every table it could write now exists. */
  lemma WriteBackJpIdempotent(db: Db, b: JpBuild, b2: JpBuild)
    ensures WriteBackJp(WriteBackJp(db, b), b2) == WriteBackJp(db, b)
  {
    WriteBackJpLaws(db, b);
    FillAllExisting(WriteBackJp(db, b), JpWrites(b2));
  }

  /** The writes keep every table holding rows of its own kind. */
  lemma WriteBackJpWellTyped(db: Db, b: JpBuild)
    requires WellTyped(db)
    ensures WellTyped(WriteBackJp(db, b))
  {
    FillAllWellTyped(db, JpWrites(b));
  }

  /** The tables `insert_int_org` joins with, when all three exist. */
  function ReadLookups(db: Db): (t: Option<OrgLookups>)
    ensures t.Some? <==> CountryTable in db && HtsTable in db && UnitTable in db
  {
    if CountryTable in db && HtsTable in db && UnitTable in db then
      Some(OrgLookups(CountryOf(db[CountryTable]), HtsOf(db[HtsTable]), UnitOf(db[UnitTable])))
    else None
  }

  /** The database `insert_int_org` joins against: the one it finds when
      jptradedata exists and no update is asked for, otherwise the one left
      by a run of `insert_int_jp`. */
  function Staged(db: Db, jpRaw: seq<JpRaw>, json: seq<string>, update: bool): Db {
    if JpTradeData in db && !update then db else WriteBackJp(db, BuildJp(jpRaw, json))
  }

  /** `if "inttradedata" not in list_tables(): init…; insert("inttradedata", facts)`. */
  function AppendOrg(db: Db, facts: seq<OrgFact>): Db {
    var db := CreateAndFill(db, IntTradeData, []);
    db[IntTradeData := db[IntTradeData] + IntRecs(facts)]
  }

  /** The append adds exactly the new facts after what inttradedata held
      (nothing, if it was absent) and touches no other table. */
  lemma AppendOrgLaws(db: Db, facts: seq<OrgFact>)
    ensures var r := AppendOrg(db, facts);
      && IntTradeData in r
      && r[IntTradeData] == (if IntTradeData in db then db[IntTradeData] else []) + IntRecs(facts)
      && |r[IntTradeData]| == (if IntTradeData in db then |db[IntTradeData]| else 0) + |facts|
      && (forall n | n in r :: n in db || n == IntTradeData)
      && (forall n | n in db && n != IntTradeData :: n in r && r[n] == db[n])
  {
  }

  lemma AppendOrgWellTyped(db: Db, facts: seq<OrgFact>)
    requires WellTyped(db)
    ensures WellTyped(AppendOrg(db, facts))
  {
    assert AllFit(IntTradeData, []);
  }

  /** After a run of `insert_int_jp` the three tables the organisation's rows
      are joined with always exist, so the update path cannot fail; and on a
      database without them they hold exactly the dimensions just built. */
  lemma StagedLookups(db: Db, jpRaw: seq<JpRaw>, json: seq<string>)
    ensures ReadLookups(Staged(db, jpRaw, json, true)).Some?
    ensures var b := BuildJp(jpRaw, json);
      CountryTable !in db && HtsTable !in db && UnitTable !in db ==>
        ReadLookups(Staged(db, jpRaw, json, true)) == Some(OrgLookups(b.dims.country, b.dims.hts, b.dims.unit))
  {
    WriteBackLookups(db, BuildJp(jpRaw, json));
  }

  /** The lookups after the JP write-back of any build. */
  lemma WriteBackLookups(db: Db, b: JpBuild)
    ensures ReadLookups(WriteBackJp(db, b)).Some?
    ensures CountryTable !in db && HtsTable !in db && UnitTable !in db ==>
      ReadLookups(WriteBackJp(db, b)) == Some(OrgLookups(b.dims.country, b.dims.hts, b.dims.unit))
  {
    WriteBackJpLaws(db, b);
    WriteBackJpFills(db, b);
    ReadBack(b.dims.country, b.dims.hts, b.dims.unit);
  }

  /** The update flag only re-runs `insert_int_jp`, which writes nothing
      once its tables exist: on such a database it refreshes no table. */
  lemma UpdateRefreshesNothing(db: Db, jpRaw: seq<JpRaw>, json: seq<string>)
    requires forall n | n in JpTables :: n in db
    ensures Staged(db, jpRaw, json, true) == db
  {
    FillAllExisting(db, JpWrites(BuildJp(jpRaw, json)));
  }

  // ---------------------------------------------------------------------
  // The object

  class DataPull {
    var tables: Db

    predicate Valid()
      reads this
    {
      WellTyped(tables)
    }

    /** A connection to an empty database. */
    constructor ()
      ensures tables == map[] && Valid()
    {
      tables := map[];
    }

    /** `init_…_table`: create an empty table. */
    method CreateTable(name: TableName)
      requires Valid() && name !in tables
      modifies this
      ensures Valid()
      ensures tables == old(tables)[name := []]
    {
      tables := tables[name := []];
    }

    /** `conn.insert(name, rows)`: append rows to an existing table. */
    method Insert(name: TableName, rs: seq<Rec>)
      requires Valid() && name in tables && AllFit(name, rs)
      modifies this
      ensures Valid()
      ensures tables == old(tables)[name := old(tables)[name] + rs]
    {
      tables := tables[name := tables[name] + rs];
    }

    /** Create a table and fill it, only when it is absent. */
    method CreateAndFillIfAbsent(name: TableName, rs: seq<Rec>)
      requires Valid() && AllFit(name, rs)
      modifies this
      ensures Valid()
      ensures tables == CreateAndFill(old(tables), name, rs)
    {
      if name !in tables {
        CreateTable(name);
        Insert(name, rs);
        assert tables[name] == rs;
      }
    }

    /** `insert_int_jp`: build the dimensions and the facts from the JP rows
        and the agricultural code list, then write each table that is
        absent, in the source's order. */
    method InsertIntJp(raw: seq<JpRaw>, json: seq<string>)
      requires Valid()
      modifies this
      ensures Valid()
      ensures tables == WriteBackJp(old(tables), BuildJp(raw, json))
    {
      var b := BuildJp(raw, json);
      WriteJp(b);
    }

    /** The writes at the end of `insert_int_jp`: the eight tables are
        checked for absence in the source's order, and each absent one is
        created and filled (the trade table is created empty). */
    method WriteJp(b: JpBuild)
      requires Valid()
      modifies this
      ensures Valid()
      ensures tables == WriteBackJp(old(tables), b)
    {
      var ws := JpWrites(b);
      WriteBackJpWellTyped(tables, b);
      assert ws[0..] == ws;
      for k := 0 to |ws|
        invariant Valid()
        invariant FillAll(tables, ws[k..]) == WriteBackJp(old(tables), b)
      {
        FillAllStep(tables, ws, k);
        CreateAndFillIfAbsent(ws[k].name, ws[k].rows);
      }
      assert ws[|ws|..] == [];
    }

    /** The last step of `insert_int_org`: create inttradedata if absent and
        append the facts to it. */
    method AppendInt(facts: seq<OrgFact>)
      requires Valid()
      modifies this
      ensures Valid()
      ensures tables == AppendOrg(old(tables), facts)
    {
      AppendOrgWellTyped(tables, facts);
      if IntTradeData !in tables {
        CreateTable(IntTradeData);
      }
      Insert(IntTradeData, IntRecs(facts));
    }

    /** `insert_int_org`: make sure the JP tables exist (running
        `insert_int_jp` when jptradedata is absent or an update is asked
        for), read the HTS, unit and country tables back, join the
        organisation's rows with them and append the facts to inttradedata,
        creating it first if absent. `ok` is false when a table to read is
        missing, which the source reports by raising; nothing is appended
        then. */
    method InsertIntOrg(raw: seq<OrgRaw>, jpRaw: seq<JpRaw>, json: seq<string>, update: bool) returns (ok: bool)
      requires Valid()
      modifies this
      ensures Valid()
      ensures var staged := Staged(old(tables), jpRaw, json, update);
        && ok == ReadLookups(staged).Some?
        && tables == (if ok then AppendOrg(staged, BuildOrg(raw, ReadLookups(staged).value)) else staged)
    {
      if !(JpTradeData in tables && !update) {
        InsertIntJp(jpRaw, json);
      }
      var t := ReadLookups(tables);
      if t.None? {
        return false;
      }
      AppendInt(BuildOrg(raw, t.value));
      return true;
    }
  }
}
