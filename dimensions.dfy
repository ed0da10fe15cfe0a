/** The reference-dimension builder of src/data/data_pull.py: the
    normalisation of the raw rows of both sources (date, trade flag,
    lower-case units, padded commodity code, SITC override), the removal of
    rows without a commodity code, and the construction of each dimension
    table (deduplicate the selected columns, drop null codes, number the
    rows by the rank of their code), including the agricultural flag of the
    HTS dimension. */
module Dimensions {
  import opened Common
  import opened Ranking

  // ---------------------------------------------------------------------
  // Raw rows (column names lower-cased)

  /** A row of the JP trade file. */
  datatype JpRaw = JpRaw(
    year: int, month: int, trade: Option<string>,
    commodityCode: Option<string>, commodityShortName: Option<string>, commodityDescription: Option<string>,
    ctyCode: Option<int>, country: Option<string>,
    sitc: Option<int>, sitcShortDesc: Option<string>, sitcLongDesc: Option<string>,
    naics: Option<string>, naicsDescription: Option<string>,
    districtPosh: Option<int>, districtPoshDesc: Option<string>,
    unit1: Option<string>, unit2: Option<string>,
    data: Option<real>, endUseI: Option<int>, endUseE: Option<int>,
    qty1: Option<real>, qty2: Option<real>)

  /** A row of the organisation's trade file. */
  datatype OrgRaw = OrgRaw(
    year: int, month: int, importExport: Option<string>, hts: Option<string>, country: Option<string>,
    unit1: Option<string>, unit2: Option<string>, value: Option<real>,
    qty1: Option<real>, qty2: Option<real>)

  // ---------------------------------------------------------------------
  // Normalisation

  /** The trade flag: "i" is an import (1); anything else, a null flag
      included, is an export (2). */
  function TradeId(flag: Option<string>): (id: int)
    ensures id == 1 || id == 2
    ensures id == 1 <==> flag == Some("i")
  {
    if flag == Some("i") then 1 else 2
  }

  /** `str.to_lowercase()` on a nullable column. */
  function LowerOpt(u: Option<string>): (r: Option<string>)
    ensures r.Some? <==> u.Some?
    ensures u.Some? ==> r.value == ToLower(u.value)
  {
    match u
    case None => None
    case Some(s) => Some(ToLower(s))
  }

  /** Lower-casing a unit twice changes nothing more than doing it once,
      and a null unit stays null. */
  lemma LowerOptIdempotent(u: Option<string>)
    ensures LowerOpt(LowerOpt(u)) == LowerOpt(u)
    ensures u.None? ==> LowerOpt(u) == None
  {
    if u.Some? {
      ToLowerIdempotent(u.value);
    }
  }

  /** The JP commodity code: padded to ten characters. */
  function JpCommodity(code: Option<string>): (r: Option<string>)
    ensures r.Some? <==> code.Some?
    ensures code.Some? ==> |r.value| == if |code.value| < 10 then 10 else |code.value|
  {
    match code
    case None => None
    case Some(c) => Some(ZFill(c, 10))
  }

  /** The organisation's commodity code: padded to ten characters, then the
      first apostrophe removed. */
  function OrgCommodity(code: Option<string>): (r: Option<string>)
    ensures r.Some? <==> code.Some?
    ensures code.Some? && '\'' !in code.value ==> r == JpCommodity(code)
  {
    match code
    case None => None
    case Some(c) =>
      assert '\'' !in c ==> '\'' !in ZFill(c, 10) by {
        if '\'' !in c && |c| < 10 {
          ZFillShape(c, 10);
          var z := ZFill(c, 10);
          forall i | 0 <= i < |z| ensures z[i] != '\'' {
            if c != [] && IsSign(c[0]) {
              assert z == [c[0]] + Zeros(10 - |c|) + c[1..];
            } else {
              assert z == Zeros(10 - |c|) + c;
            }
          }
        }
      }
      Some(RemoveFirst(ZFill(c, 10), '\''))
  }

  /** Unlike the JP code, the organisation's code can end up shorter than
      ten characters: the apostrophe is removed after padding. */
  lemma OrgCommodityCanBeShort()
    ensures OrgCommodity(Some("'12345678")) == Some("012345678")
    ensures |JpCommodity(Some("'12345678")).value| == 10
  {
    var c := "'12345678";
    assert |c| == 9 && !IsSign(c[0]);
    assert Zeros(1) == "0";
    assert ZFill(c, 10) == "0" + c;
    var z := "0" + c;
    assert z[0] == '0' && z[1..] == c;
    assert RemoveFirst(z, '\'') == "0" + RemoveFirst(c, '\'');
    assert RemoveFirst(c, '\'') == c[1..] == "12345678";
    assert "0" + "12345678" == "012345678";
  }

  /** The SITC override: a short description starting with "Civilian" gives
      9998, one starting with "-" gives 9999, and otherwise (a null
      description included) the SITC code is kept. */
  function SitcOverride(desc: Option<string>, sitc: Option<int>): (r: Option<int>)
    ensures desc.Some? && StartsWith(desc.value, "Civilian") ==> r == Some(9998)
    ensures desc.Some? && StartsWith(desc.value, "-") ==> r == Some(9999)
    ensures desc.None? || (!StartsWith(desc.value, "Civilian") && !StartsWith(desc.value, "-")) ==> r == sitc
  {
    if desc.Some? && StartsWith(desc.value, "Civilian") then
      assert desc.value[0] == desc.value[..8][0] == 'C';
      Some(9998)
    else if desc.Some? && StartsWith(desc.value, "-") then Some(9999)
    else sitc
  }

  /** A JP row after normalisation: the date built from year and month, the
      trade id, and the raw columns with units lower-cased, the commodity
      code padded and the SITC code overridden. */
  datatype JpRow = JpRow(date: Date, tradeId: int, raw: JpRaw)

  function NormaliseJp(r: JpRaw): (n: JpRow)
    ensures n.date == Date(r.year, r.month, 1) && n.tradeId == TradeId(r.trade)
    ensures n.raw == r.(unit1 := LowerOpt(r.unit1), unit2 := LowerOpt(r.unit2),
                        commodityCode := JpCommodity(r.commodityCode),
                        sitc := SitcOverride(r.sitcShortDesc, r.sitc))
  {
    JpRow(Date(r.year, r.month, 1), TradeId(r.trade),
          r.(unit1 := LowerOpt(r.unit1), unit2 := LowerOpt(r.unit2),
             commodityCode := JpCommodity(r.commodityCode),
             sitc := SitcOverride(r.sitcShortDesc, r.sitc)))
  }

  /** The normalised JP rows with a commodity code, in order: a row whose
      code is null is dropped before any dimension is built. */
  function PrepareJp(raw: seq<JpRaw>): (rows: seq<JpRow>) {
    FlatMap(Kept, raw)
  }

  /** The one-row result of normalising and filtering a raw row. */
  function Kept(r: JpRaw): (rows: seq<JpRow>) {
    if r.commodityCode.Some? then [NormaliseJp(r)] else []
  }

  /** The prepared rows are the normalised raw rows with a commodity code,
      and no others. */
  lemma {:induction false} PrepareJpLaws(raw: seq<JpRaw>)
    ensures |PrepareJp(raw)| <= |raw|
    ensures forall x | x in PrepareJp(raw) :: x.raw.commodityCode.Some?
    ensures forall r | r in raw && r.commodityCode.Some? :: NormaliseJp(r) in PrepareJp(raw)
    ensures forall x | x in PrepareJp(raw) :: exists r | r in raw :: x == NormaliseJp(r)
  {
    if raw != [] {
      PrepareJpLaws(raw[1..]);
      assert PrepareJp(raw) == Kept(raw[0]) + PrepareJp(raw[1..]);
      assert forall r | r in raw :: r == raw[0] || r in raw[1..];
    }
  }

  /** Preparation works row by row and keeps the order: a raw row added at
      the end adds its normalised form at the end when it has a commodity
      code, and nothing otherwise. */
  lemma PrepareJpSnoc(raw: seq<JpRaw>, r: JpRaw)
    ensures PrepareJp([]) == []
    ensures PrepareJp(raw + [r]) == PrepareJp(raw) + (if r.commodityCode.Some? then [NormaliseJp(r)] else [])
  {
    FlatMapConcat(Kept, raw, [r]);
    assert [r][1..] == [];
    assert PrepareJp([r]) == Kept(r) + PrepareJp([]);
  }

  /** A raw row without a commodity code changes nothing downstream. */
  lemma NullCommodityIgnored(raw: seq<JpRaw>, r: JpRaw)
    requires r.commodityCode.None?
    ensures PrepareJp(raw + [r]) == PrepareJp(raw)
  {
    FlatMapConcat(Kept, raw, [r]);
    assert [r][1..] == [];
    assert PrepareJp([r]) == Kept(r) + PrepareJp([]);
  }

  /** An organisation row after normalisation (no row is dropped). */
  datatype OrgRow = OrgRow(date: Date, tradeId: int, raw: OrgRaw)

  function NormaliseOrg(r: OrgRaw): (n: OrgRow)
    ensures n.date == Date(r.year, r.month, 1) && n.tradeId == TradeId(r.importExport)
    ensures n.raw == r.(unit1 := LowerOpt(r.unit1), unit2 := LowerOpt(r.unit2), hts := OrgCommodity(r.hts))
  {
    OrgRow(Date(r.year, r.month, 1), TradeId(r.importExport),
           r.(unit1 := LowerOpt(r.unit1), unit2 := LowerOpt(r.unit2), hts := OrgCommodity(r.hts)))
  }

  function PrepareOrg(raw: seq<OrgRaw>): (rows: seq<OrgRow>)
    ensures |rows| == |raw|
    ensures forall i | 0 <= i < |raw| :: rows[i] == NormaliseOrg(raw[i])
  {
    seq(|raw|, i requires 0 <= i < |raw| => NormaliseOrg(raw[i]))
  }

  // ---------------------------------------------------------------------
  // Building one dimension

  /** A dimension row: its code, its descriptive columns and its id. */
  datatype DimRow<K, A> = DimRow(code: K, attrs: A, id: nat)

  /** The selected rows whose code is not null, in order. */
  function Keyed<K(==,!new), A(==,!new)>(s: seq<(Option<K>, A)>): (r: seq<(K, A)>)
    ensures |r| <= |s|
    ensures forall k, a :: (k, a) in r <==> (Some(k), a) in s
    ensures Distinct(s) ==> Distinct(r)
  {
    if s == [] then []
    else
      var rest := Keyed(s[1..]);
      assert forall x | x in s :: x == s[0] || x in s[1..];
      assert Distinct(s) ==> Distinct(s[1..]) && s[0] !in s[1..];
      if s[0].0.Some? then [(s[0].0.value, s[0].1)] + rest else rest
  }

  function Codes<K, A>(rows: seq<(K, A)>): (cs: seq<K>)
    ensures |cs| == |rows|
    ensures forall i | 0 <= i < |rows| :: cs[i] == rows[i].0
  {
    seq(|rows|, i requires 0 <= i < |rows| => rows[i].0)
  }

  /** `select(cols).unique()`, the null filter on the code, and
      `id = rank(code)`. */
  function BuildDim<K(==,!new), A(==,!new)>(selected: seq<(Option<K>, A)>, how: RankMethod, lt: (K, K) -> bool): seq<DimRow<K, A>> {
    var rows := Keyed(Dedup(selected));
    var ids := Rank(Codes(rows), how, lt);
    seq(|rows|, i requires 0 <= i < |rows| => DimRow(rows[i].0, rows[i].1, ids[i]))
  }

  function Entries<K, A>(dim: seq<DimRow<K, A>>): (es: seq<(K, A)>)
    ensures |es| == |dim|
    ensures forall i | 0 <= i < |dim| :: es[i] == (dim[i].code, dim[i].attrs)
  {
    seq(|dim|, i requires 0 <= i < |dim| => (dim[i].code, dim[i].attrs))
  }

  function Ids<K, A>(dim: seq<DimRow<K, A>>): (ids: seq<nat>)
    ensures |ids| == |dim|
    ensures forall i | 0 <= i < |dim| :: ids[i] == dim[i].id
  {
    seq(|dim|, i requires 0 <= i < |dim| => dim[i].id)
  }

  /** A dimension holds each distinct non-null selection exactly once, and
      numbers its rows by the rank of their code among all its rows. */
  lemma BuildDimLaws<K(!new), A(!new)>(selected: seq<(Option<K>, A)>, how: RankMethod, lt: (K, K) -> bool)
    ensures var dim := BuildDim(selected, how, lt);
      && Distinct(Entries(dim))
      && (forall k, a :: (k, a) in Entries(dim) <==> (Some(k), a) in selected)
      && Ids(dim) == Rank(Codes(Entries(dim)), how, lt)
  {
    var rows := Keyed(Dedup(selected));
    var dim := BuildDim(selected, how, lt);
    assert Entries(dim) == rows;
    forall k, a ensures (Some(k), a) in Dedup(selected) <==> (Some(k), a) in selected {
      var x := (Some(k), a);
      if x in selected {
        var i :| 0 <= i < |selected| && selected[i] == x;
      }
      if x in Dedup(selected) {
        var i :| 0 <= i < |Dedup(selected)| && Dedup(selected)[i] == x;
      }
    }
  }

  /** The ordinal ids of a dimension are exactly 1..n for its n rows, a
      smaller code has a smaller id, and rows with equal codes (one code
      with several descriptions) are numbered in row order. */
  lemma OrdinalDimIds<K(!new), A(!new)>(selected: seq<(Option<K>, A)>, lt: (K, K) -> bool)
    requires StrictTotalOrder(lt)
    ensures var dim := BuildDim(selected, Ordinal, lt);
      var ids := Ids(dim);
      && Distinct(ids)
      && (set i | 0 <= i < |ids| :: ids[i]) == IdRange(|dim|)
      && (forall i, j | 0 <= i < |dim| && 0 <= j < |dim| && lt(dim[i].code, dim[j].code) :: ids[i] < ids[j])
      && (forall i, j | 0 <= i < j < |dim| && dim[i].code == dim[j].code :: ids[i] < ids[j])
  {
    OrdinalDimRange(selected, lt);
    OrdinalDimOrder(selected, lt);
  }

  /** The ordinal ids of a dimension are 1..n, each once. */
  lemma OrdinalDimRange<K(!new), A(!new)>(selected: seq<(Option<K>, A)>, lt: (K, K) -> bool)
    requires StrictTotalOrder(lt)
    ensures var dim := BuildDim(selected, Ordinal, lt);
      var ids := Ids(dim);
      Distinct(ids) && (set i | 0 <= i < |ids| :: ids[i]) == IdRange(|dim|)
  {
    DimRanked(selected, Ordinal, lt);
    OrdinalImage(Codes(Entries(BuildDim(selected, Ordinal, lt))), lt);
  }

  /** Ordinal ids follow the code order, and row order among equal codes. */
  lemma OrdinalDimOrder<K(!new), A(!new)>(selected: seq<(Option<K>, A)>, lt: (K, K) -> bool)
    requires StrictTotalOrder(lt)
    ensures var dim := BuildDim(selected, Ordinal, lt);
      var ids := Ids(dim);
      && (forall i, j | 0 <= i < |dim| && 0 <= j < |dim| && lt(dim[i].code, dim[j].code) :: ids[i] < ids[j])
      && (forall i, j | 0 <= i < j < |dim| && dim[i].code == dim[j].code :: ids[i] < ids[j])
  {
    var dim := BuildDim(selected, Ordinal, lt);
    DimRanked(selected, Ordinal, lt);
    var codes, ids := Codes(Entries(dim)), Ids(dim);
    forall i, j | 0 <= i < |dim| && 0 <= j < |dim| && lt(dim[i].code, dim[j].code) ensures ids[i] < ids[j] {
      assert codes[i] == dim[i].code && codes[j] == dim[j].code;
      OrdinalMonotone(codes, lt, i, j);
    }
    forall i, j | 0 <= i < j < |dim| && dim[i].code == dim[j].code ensures ids[i] < ids[j] {
      assert codes[i] == dim[i].code && codes[j] == dim[j].code;
      OrdinalMonotone(codes, lt, i, j);
    }
  }

  /** The ids of a dimension are the ranks of its codes. */
  lemma DimRanked<K(!new), A(!new)>(selected: seq<(Option<K>, A)>, how: RankMethod, lt: (K, K) -> bool)
    ensures var dim := BuildDim(selected, how, lt);
      |Codes(Entries(dim))| == |dim| && Ids(dim) == Rank(Codes(Entries(dim)), how, lt)
  {
    var rows := Keyed(Dedup(selected));
    var dim := BuildDim(selected, how, lt);
    assert Entries(dim) == rows;
  }

  /** When every code comes with one description only, the codes of the
      dimension are distinct. */
  lemma FunctionalCodesDistinct<K(!new), A(!new)>(selected: seq<(Option<K>, A)>, how: RankMethod, lt: (K, K) -> bool)
    requires forall i, j | 0 <= i < |selected| && 0 <= j < |selected| && selected[i].0 == selected[j].0 :: selected[i].1 == selected[j].1
    ensures Distinct(Codes(Entries(BuildDim(selected, how, lt))))
  {
    var dim := BuildDim(selected, how, lt);
    var es := Entries(dim);
    BuildDimLaws(selected, how, lt);
    forall i, j | 0 <= i < j < |es| ensures es[i].0 != es[j].0 {
      assert (Some(es[i].0), es[i].1) in selected;
      assert (Some(es[j].0), es[j].1) in selected;
      var p :| 0 <= p < |selected| && selected[p] == (Some(es[i].0), es[i].1);
      var q :| 0 <= q < |selected| && selected[q] == (Some(es[j].0), es[j].1);
      assert es[i] != es[j];
    }
  }

  // ---------------------------------------------------------------------
  // The JP dimensions

  /** The agricultural code list: the JSON codes padded to four characters. */
  function AgriList(json: seq<string>): (codes: seq<string>)
    ensures |codes| == |json|
    ensures forall i | 0 <= i < |json| :: codes[i] == ZFill(json[i], 4)
  {
    seq(|json|, i requires 0 <= i < |json| => ZFill(json[i], 4))
  }

  /** A code is on the agricultural list exactly when it is a JSON code
      padded to four characters; a code already four long is listed as is. */
  lemma AgriListMembers(json: seq<string>)
    ensures forall p :: p in AgriList(json) <==> exists c | c in json :: ZFill(c, 4) == p
    ensures forall c | c in json && |c| >= 4 :: c in AgriList(json)
  {
    var codes := AgriList(json);
    forall p ensures p in codes <==> exists c | c in json :: ZFill(c, 4) == p {
      if p in codes {
        var i :| 0 <= i < |codes| && codes[i] == p;
        assert json[i] in json;
      }
      if exists c | c in json :: ZFill(c, 4) == p {
        var c :| c in json && ZFill(c, 4) == p;
        var i :| 0 <= i < |json| && json[i] == c;
        assert codes[i] == p;
      }
    }
  }

  /** An HTS dimension row, with its agricultural flag. */
  datatype HtsEntry = HtsEntry(code: string, shortDesc: Option<string>, longDesc: Option<string>, id: nat, agriProd: bool)

  type Desc = Option<string>

  function CountrySelect(rows: seq<JpRow>): seq<(Option<int>, Desc)> {
    seq(|rows|, i requires 0 <= i < |rows| => (rows[i].raw.ctyCode, rows[i].raw.country))
  }

  function HtsSelect(rows: seq<JpRow>): seq<(Option<string>, (Desc, Desc))> {
    seq(|rows|, i requires 0 <= i < |rows| =>
      (rows[i].raw.commodityCode, (rows[i].raw.commodityShortName, rows[i].raw.commodityDescription)))
  }

  function SitcSelect(rows: seq<JpRow>): seq<(Option<int>, (Desc, Desc))> {
    seq(|rows|, i requires 0 <= i < |rows| =>
      (rows[i].raw.sitc, (rows[i].raw.sitcShortDesc, rows[i].raw.sitcLongDesc)))
  }

  function NaicsSelect(rows: seq<JpRow>): seq<(Option<string>, Desc)> {
    seq(|rows|, i requires 0 <= i < |rows| => (rows[i].raw.naics, rows[i].raw.naicsDescription))
  }

  function DistrictSelect(rows: seq<JpRow>): seq<(Option<int>, Desc)> {
    seq(|rows|, i requires 0 <= i < |rows| => (rows[i].raw.districtPosh, rows[i].raw.districtPoshDesc))
  }

  /** The unit dimension selects `unit_1` alone. */
  function UnitSelect(rows: seq<JpRow>): (s: seq<(Option<string>, ())>)
    ensures |s| == |rows|
    ensures forall i | 0 <= i < |rows| :: s[i] == (rows[i].raw.unit1, ())
  {
    seq(|rows|, i requires 0 <= i < |rows| => (rows[i].raw.unit1, ()))
  }

  /** The HTS dimension: ordinal ids on the code, and `agri_prod` set when
      the code's first four characters are in the agricultural list. */
  function HtsDim(rows: seq<JpRow>, json: seq<string>): (dim: seq<HtsEntry>)
    ensures forall e | e in dim :: e.agriProd <==> exists c | c in json :: ZFill(c, 4) == Take(e.code, 4)
  {
    var base := BuildDim(HtsSelect(rows), Ordinal, StrLess);
    var agri := AgriList(json);
    assert forall p | p in agri :: exists c | c in json :: ZFill(c, 4) == p;
    assert forall c | c in json :: ZFill(c, 4) in agri by {
      forall c | c in json ensures ZFill(c, 4) in agri {
        var i :| 0 <= i < |json| && json[i] == c;
        assert agri[i] == ZFill(c, 4);
      }
    }
    seq(|base|, i requires 0 <= i < |base| =>
      var d := base[i];
      HtsEntry(d.code, d.attrs.0, d.attrs.1, d.id, Take(d.code, 4) in agri))
  }

  /** The HTS dimension is the ordinal dimension of the commodity columns,
      row for row, with the flag added. */
  lemma HtsDimIsDim(rows: seq<JpRow>, json: seq<string>)
    ensures var dim, base := HtsDim(rows, json), BuildDim(HtsSelect(rows), Ordinal, StrLess);
      |dim| == |base| &&
      forall i | 0 <= i < |dim| ::
        dim[i].code == base[i].code && (dim[i].shortDesc, dim[i].longDesc) == base[i].attrs && dim[i].id == base[i].id
  {
  }

  /** All dimensions built from the JP rows. */
  datatype JpDims = JpDims(
    country: seq<DimRow<int, Desc>>,
    sitc: seq<DimRow<int, (Desc, Desc)>>,
    hts: seq<HtsEntry>,
    naics: seq<DimRow<string, Desc>>,
    district: seq<DimRow<int, Desc>>,
    unit: seq<DimRow<string, ()>>)

  function BuildJpDims(rows: seq<JpRow>, json: seq<string>): JpDims {
    JpDims(
      BuildDim(CountrySelect(rows), Ordinal, IntLess),
      BuildDim(SitcSelect(rows), Ordinal, IntLess),
      HtsDim(rows, json),
      BuildDim(NaicsSelect(rows), Ordinal, StrLess),
      // the district id is the default (average) rank
      BuildDim(DistrictSelect(rows), Average, IntLess),
      BuildDim(UnitSelect(rows), Ordinal, StrLess))
  }

  /** The unit dimension has one row per distinct non-null `unit_1`, so its
      codes are exactly those values, each once. */
  lemma UnitDimLaws(rows: seq<JpRow>)
    ensures var unit := BuildDim(UnitSelect(rows), Ordinal, StrLess);
      && Distinct(Codes(Entries(unit)))
      && forall u :: u in Codes(Entries(unit)) <==> exists i | 0 <= i < |rows| :: rows[i].raw.unit1 == Some(u)
  {
    var sel := UnitSelect(rows);
    FunctionalCodesDistinct(sel, Ordinal, StrLess);
    BuildDimLaws(sel, Ordinal, StrLess);
    UnitCodes(rows, Entries(BuildDim(sel, Ordinal, StrLess)));
  }

  /** Entries drawn from the unit selection have as codes exactly the
      present `unit_1` values. */
  lemma UnitCodes(rows: seq<JpRow>, es: seq<(string, ())>)
    requires forall k, a :: (k, a) in es <==> (Some(k), a) in UnitSelect(rows)
    ensures forall u :: u in Codes(es) <==> exists i | 0 <= i < |rows| :: rows[i].raw.unit1 == Some(u)
  {
    var sel := UnitSelect(rows);
    forall u ensures u in Codes(es) <==> exists i | 0 <= i < |rows| :: rows[i].raw.unit1 == Some(u) {
      if u in Codes(es) {
        var j :| 0 <= j < |es| && Codes(es)[j] == u;
        assert es[j] == (u, ());
        assert (Some(u), ()) in sel;
        var i :| 0 <= i < |sel| && sel[i] == (Some(u), ());
        assert rows[i].raw.unit1 == Some(u);
      }
      if exists i | 0 <= i < |rows| :: rows[i].raw.unit1 == Some(u) {
        var i :| 0 <= i < |rows| && rows[i].raw.unit1 == Some(u);
        assert sel[i] == (Some(u), ());
        assert (u, ()) in es;
        var j :| 0 <= j < |es| && es[j] == (u, ());
        assert Codes(es)[j] == u;
      }
    }
  }

  /** Two descriptions of one district code give two district rows with
      the same id under the default rank: district ids are not distinct. */
  lemma DistrictIdsMayRepeat()
    ensures var dim := BuildDim([(Some(7), Some("a")), (Some(7), Some("b"))], Average, IntLess);
      |dim| == 2 && dim[0].id == 1 && dim[1].id == 1
  {
    var sel: seq<(Option<int>, Desc)> := [(Some(7), Some("a")), (Some(7), Some("b"))];
    assert sel[..1] == [sel[0]];
    assert Dedup(sel[..1]) == [sel[0]];
    assert Dedup(sel) == sel;
    assert sel[1..] == [sel[1]];
    assert Keyed(sel) == [(7, Some("a")), (7, Some("b"))];
    var cs := [7, 7];
    assert Codes(Keyed(sel)) == cs;
    assert Smaller(cs, IntLess, 0) == {} && Smaller(cs, IntLess, 1) == {};
    assert Ties(cs, 0) == {0, 1} && Ties(cs, 1) == {0, 1};
  }
}
