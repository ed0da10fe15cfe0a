/** The fact enricher of src/data/data_pull.py: the left joins that attach
    the id of each dimension to the trade rows (seven for the JP data, four
    for the organisation's data) and the final selection of the fact
    columns. A left join keeps every left row, matches a code against every
    dimension row carrying it, and gives a null id to a row whose code is
    null or absent. */
module Enrichment {
  import opened Common
  import opened Dimensions

  // ---------------------------------------------------------------------
  // One left join

  /** The ids of the dimension rows whose code is k, in dimension order. */
  function Matches<K(==)>(k: K, dim: seq<(K, nat)>): (ids: seq<nat>)
    ensures |ids| <= |dim|
  {
    if dim == [] then []
    else (if dim[0].0 == k then [dim[0].1] else []) + Matches(k, dim[1..])
  }

  /** The ids Matches gives are those paired with k in the dimension; none
      for an absent code, at most one when the codes are distinct. */
  lemma MatchesLaws<K>(k: K, dim: seq<(K, nat)>)
    ensures forall id :: id in Matches(k, dim) <==> (k, id) in dim
    ensures k !in Codes(dim) ==> Matches(k, dim) == []
    ensures Distinct(Codes(dim)) ==> |Matches(k, dim)| <= 1
  {
    MatchesMembers(k, dim);
    if k !in Codes(dim) {
      MatchesAbsent(k, dim);
    }
    if Distinct(Codes(dim)) {
      MatchesAtMostOne(k, dim);
    }
  }

  lemma {:induction false} MatchesMembers<K>(k: K, dim: seq<(K, nat)>)
    ensures forall id :: id in Matches(k, dim) <==> (k, id) in dim
  {
    if dim != [] {
      MatchesMembers(k, dim[1..]);
      assert forall x | x in dim :: x == dim[0] || x in dim[1..];
    }
  }

  lemma {:induction false} MatchesAbsent<K>(k: K, dim: seq<(K, nat)>)
    requires k !in Codes(dim)
    ensures Matches(k, dim) == []
  {
    if dim != [] {
      assert Codes(dim) == [dim[0].0] + Codes(dim[1..]);
      MatchesAbsent(k, dim[1..]);
    }
  }

  lemma {:induction false} MatchesAtMostOne<K>(k: K, dim: seq<(K, nat)>)
    requires Distinct(Codes(dim))
    ensures |Matches(k, dim)| <= 1
  {
    if dim != [] {
      assert Codes(dim) == [dim[0].0] + Codes(dim[1..]);
      assert Distinct(Codes(dim[1..]));
      MatchesAtMostOne(k, dim[1..]);
      if dim[0].0 == k {
        assert k !in Codes(dim[1..]);
        MatchesAbsent(k, dim[1..]);
      }
    }
  }

  /** The ids a left row receives: one per matching dimension row, or a
      single null when its code is null or matches nothing. */
  function Lookup<K(==)>(code: Option<K>, dim: seq<(K, nat)>): (ids: seq<Option<nat>>)
    ensures |ids| >= 1
  {
    if code.None? then [None]
    else
      var m := Matches(code.value, dim);
      if m == [] then [None] else seq(|m|, i requires 0 <= i < |m| => Some(m[i]))
  }

  /** How Lookup answers: a null or absent code gets exactly [None], a
      present one gets the ids of its dimension rows, and with distinct
      dimension codes one id at most. */
  lemma LookupLaws<K>(code: Option<K>, dim: seq<(K, nat)>)
    ensures code.None? || code.value !in Codes(dim) ==> Lookup(code, dim) == [None]
    ensures code.Some? && code.value in Codes(dim) ==>
      forall id :: Some(id) in Lookup(code, dim) <==> (code.value, id) in dim
    ensures code.Some? && code.value in Codes(dim) ==> None !in Lookup(code, dim)
    ensures Distinct(Codes(dim)) ==> |Lookup(code, dim)| == 1
  {
    if code.Some? {
      var k := code.value;
      MatchesLaws(k, dim);
      var m := Matches(k, dim);
      if k in Codes(dim) {
        var i :| 0 <= i < |dim| && Codes(dim)[i] == k;
        assert (k, dim[i].1) in dim;
        assert m != [];
        var ids := Lookup(code, dim);
        forall id ensures Some(id) in ids <==> id in m {
          if Some(id) in ids {
            var j :| 0 <= j < |ids| && ids[j] == Some(id);
            assert m[j] == id;
          }
          if id in m {
            var j :| 0 <= j < |m| && m[j] == id;
            assert ids[j] == Some(id);
          }
        }
      }
    }
  }

  /** `rows.join(dim, on=key, how="left")`: every left row in order, once per
      id it receives, with that id attached. */
  function JoinOn<R, K(==)>(rows: seq<R>, key: R -> Option<K>, dim: seq<(K, nat)>, attach: (R, Option<nat>) -> R): seq<R> {
    FlatMap((r: R) => Attach(r, Lookup(key(r), dim), attach), rows)
  }

  function Attach<R>(r: R, ids: seq<Option<nat>>, attach: (R, Option<nat>) -> R): (out: seq<R>)
    ensures |out| == |ids|
    ensures forall i | 0 <= i < |ids| :: out[i] == attach(r, ids[i])
  {
    seq(|ids|, i requires 0 <= i < |ids| => attach(r, ids[i]))
  }

  /** The rows Attach gives are exactly `attach(r, id)` for its ids. */
  lemma AttachLaws<R>(r: R, ids: seq<Option<nat>>, attach: (R, Option<nat>) -> R)
    ensures forall id | id in ids :: attach(r, id) in Attach(r, ids, attach)
    ensures forall p | p in Attach(r, ids, attach) :: exists id | id in ids :: p == attach(r, id)
  {
    var out := Attach(r, ids, attach);
    forall id | id in ids ensures attach(r, id) in out {
      var j :| 0 <= j < |ids| && ids[j] == id;
      assert out[j] == attach(r, id);
    }
    forall p | p in out ensures exists id | id in ids :: p == attach(r, id) {
      var j :| 0 <= j < |out| && out[j] == p;
      assert ids[j] in ids;
    }
  }

  /** A left join keeps every row, at least once, once per id it receives. */
  lemma {:induction false} JoinCoverage<R(!new), K>(rows: seq<R>, key: R -> Option<K>, dim: seq<(K, nat)>, attach: (R, Option<nat>) -> R)
    ensures var out := JoinOn(rows, key, dim, attach);
      && |out| >= |rows|
      && (forall r, id | r in rows && id in Lookup(key(r), dim) :: attach(r, id) in out)
  {
    if rows != [] {
      JoinCoverage(rows[1..], key, dim, attach);
      AttachLaws(rows[0], Lookup(key(rows[0]), dim), attach);
      assert JoinOn(rows, key, dim, attach) == Attach(rows[0], Lookup(key(rows[0]), dim), attach) + JoinOn(rows[1..], key, dim, attach);
      assert forall r | r in rows :: r == rows[0] || r in rows[1..];
    }
  }

  /** Every row a left join gives comes from a left row and one of its ids. */
  lemma {:induction false} JoinOrigins<R(!new), K>(rows: seq<R>, key: R -> Option<K>, dim: seq<(K, nat)>, attach: (R, Option<nat>) -> R)
    ensures forall p | p in JoinOn(rows, key, dim, attach) :: exists r, id | r in rows && id in Lookup(key(r), dim) :: p == attach(r, id)
  {
    if rows != [] {
      JoinOrigins(rows[1..], key, dim, attach);
      AttachLaws(rows[0], Lookup(key(rows[0]), dim), attach);
      var head, tail := Attach(rows[0], Lookup(key(rows[0]), dim), attach), JoinOn(rows[1..], key, dim, attach);
      assert JoinOn(rows, key, dim, attach) == head + tail;
      forall p | p in head + tail ensures exists r, id | r in rows && id in Lookup(key(r), dim) :: p == attach(r, id) {
        if p in head {
          var id :| id in Lookup(key(rows[0]), dim) && p == attach(rows[0], id);
          assert rows[0] in rows;
        } else {
          var r, id :| r in rows[1..] && id in Lookup(key(r), dim) && p == attach(r, id);
          assert r in rows;
        }
      }
    }
  }

  /** With distinct dimension codes a left join keeps the rows one for one,
      each with its single id. */
  lemma {:induction false} JoinOneToOne<R(!new), K>(rows: seq<R>, key: R -> Option<K>, dim: seq<(K, nat)>, attach: (R, Option<nat>) -> R)
    requires Distinct(Codes(dim))
    ensures var out := JoinOn(rows, key, dim, attach);
      |out| == |rows| && forall i | 0 <= i < |rows| :: out[i] == attach(rows[i], Lookup(key(rows[i]), dim)[0])
  {
    if rows != [] {
      JoinOneToOne(rows[1..], key, dim, attach);
      LookupLaws(key(rows[0]), dim);
      assert JoinOn(rows, key, dim, attach) == Attach(rows[0], Lookup(key(rows[0]), dim), attach) + JoinOn(rows[1..], key, dim, attach);
    }
  }

  /** A left join keeps every row (at least once), every output row comes
      from a left row with one of the ids Lookup gives it, and with distinct
      dimension codes the join keeps the rows one for one, each with its
      single id. */
  lemma JoinLaws<R(!new), K>(rows: seq<R>, key: R -> Option<K>, dim: seq<(K, nat)>, attach: (R, Option<nat>) -> R)
    ensures var out := JoinOn(rows, key, dim, attach);
      && |out| >= |rows|
      && (forall r, id | r in rows && id in Lookup(key(r), dim) :: attach(r, id) in out)
      && (forall p | p in out :: exists r, id | r in rows && id in Lookup(key(r), dim) :: p == attach(r, id))
      && (Distinct(Codes(dim)) ==>
            |out| == |rows| && forall i | 0 <= i < |rows| :: out[i] == attach(rows[i], Lookup(key(rows[i]), dim)[0]))
  {
    JoinCoverage(rows, key, dim, attach);
    JoinOrigins(rows, key, dim, attach);
    if Distinct(Codes(dim)) {
      JoinOneToOne(rows, key, dim, attach);
    }
  }

  /** The (code, id) pairs of a dimension. */
  function CodeIds<K, A>(dim: seq<DimRow<K, A>>): (ps: seq<(K, nat)>)
    ensures Codes(ps) == Codes(Entries(dim))
  {
    seq(|dim|, i requires 0 <= i < |dim| => (dim[i].code, dim[i].id))
  }

  function HtsCodeIds(dim: seq<HtsEntry>): seq<(string, nat)> {
    seq(|dim|, i requires 0 <= i < |dim| => (dim[i].code, dim[i].id))
  }

  // ---------------------------------------------------------------------
  // The JP facts

  /** The ids a JP row collects, one join at a time. */
  datatype JpIds = JpIds(
    country: Option<nat>, sitc: Option<nat>, hts: Option<nat>, naics: Option<nat>,
    district: Option<nat>, unit1: Option<nat>, unit2: Option<nat>)

  const NoJpIds := JpIds(None, None, None, None, None, None, None)

  datatype JpPending = JpPending(row: JpRow, ids: JpIds)

  function StartJp(rows: seq<JpRow>): (ps: seq<JpPending>)
    ensures |ps| == |rows|
    ensures forall i | 0 <= i < |rows| :: ps[i] == JpPending(rows[i], NoJpIds)
  {
    seq(|rows|, i requires 0 <= i < |rows| => JpPending(rows[i], NoJpIds))
  }

  function JoinCountry(ps: seq<JpPending>, dims: JpDims): seq<JpPending> {
    JoinOn(ps, (p: JpPending) => p.row.raw.ctyCode, CodeIds(dims.country),
           (p: JpPending, id: Option<nat>) => p.(ids := p.ids.(country := id)))
  }

  function JoinSitc(ps: seq<JpPending>, dims: JpDims): seq<JpPending> {
    JoinOn(ps, (p: JpPending) => p.row.raw.sitc, CodeIds(dims.sitc),
           (p: JpPending, id: Option<nat>) => p.(ids := p.ids.(sitc := id)))
  }

  function JoinHts(ps: seq<JpPending>, dims: JpDims): seq<JpPending> {
    JoinOn(ps, (p: JpPending) => p.row.raw.commodityCode, HtsCodeIds(dims.hts),
           (p: JpPending, id: Option<nat>) => p.(ids := p.ids.(hts := id)))
  }

  function JoinNaics(ps: seq<JpPending>, dims: JpDims): seq<JpPending> {
    JoinOn(ps, (p: JpPending) => p.row.raw.naics, CodeIds(dims.naics),
           (p: JpPending, id: Option<nat>) => p.(ids := p.ids.(naics := id)))
  }

  function JoinDistrict(ps: seq<JpPending>, dims: JpDims): seq<JpPending> {
    JoinOn(ps, (p: JpPending) => p.row.raw.districtPosh, CodeIds(dims.district),
           (p: JpPending, id: Option<nat>) => p.(ids := p.ids.(district := id)))
  }

  function JoinUnit1(ps: seq<JpPending>, dims: JpDims): seq<JpPending> {
    JoinOn(ps, (p: JpPending) => p.row.raw.unit1, CodeIds(dims.unit),
           (p: JpPending, id: Option<nat>) => p.(ids := p.ids.(unit1 := id)))
  }

  function JoinUnit2(ps: seq<JpPending>, dims: JpDims): seq<JpPending> {
    JoinOn(ps, (p: JpPending) => p.row.raw.unit2, CodeIds(dims.unit),
           (p: JpPending, id: Option<nat>) => p.(ids := p.ids.(unit2 := id)))
  }

  /** The seven left joins of the JP rows, in the source's order: country on
      cty_code, SITC on sitc, HTS on the commodity code, NAICS on naics,
      district on district_posh, and the unit table twice, on unit_1 and on
      unit_2. */
  function EnrichJp(rows: seq<JpRow>, dims: JpDims): seq<JpPending> {
    JoinUnit2(JoinUnit1(JoinDistrict(JoinNaics(JoinHts(JoinSitc(JoinCountry(StartJp(rows), dims), dims), dims), dims), dims), dims), dims)
  }

  /** The ids a JP row gets from dimensions whose codes are distinct: the
      one matching id of each dimension, or null. */
  function ExpectedJpIds(r: JpRow, dims: JpDims): JpIds {
    JpIds(Lookup(r.raw.ctyCode, CodeIds(dims.country))[0],
          Lookup(r.raw.sitc, CodeIds(dims.sitc))[0],
          Lookup(r.raw.commodityCode, HtsCodeIds(dims.hts))[0],
          Lookup(r.raw.naics, CodeIds(dims.naics))[0],
          Lookup(r.raw.districtPosh, CodeIds(dims.district))[0],
          Lookup(r.raw.unit1, CodeIds(dims.unit))[0],
          Lookup(r.raw.unit2, CodeIds(dims.unit))[0])
  }

  /** Every dimension's codes are distinct, so no join multiplies rows. */
  predicate DistinctCodes(dims: JpDims) {
    && Distinct(Codes(CodeIds(dims.country)))
    && Distinct(Codes(CodeIds(dims.sitc)))
    && Distinct(Codes(HtsCodeIds(dims.hts)))
    && Distinct(Codes(CodeIds(dims.naics)))
    && Distinct(Codes(CodeIds(dims.district)))
    && Distinct(Codes(CodeIds(dims.unit)))
  }

  /** Whatever the dimensions, the joins keep every JP row: each occurs in
      the result, with the ids of all seven dimensions attached. */
  lemma EnrichJpKeepsRows(rows: seq<JpRow>, dims: JpDims)
    ensures var out := EnrichJp(rows, dims);
      |out| >= |rows| && forall r | r in rows :: exists p | p in out :: p.row == r
  {
    var p0 := StartJp(rows);
    assert forall r | r in rows :: exists p | p in p0 :: p.row == r by {
      forall r | r in rows ensures exists p | p in p0 :: p.row == r {
        var i :| 0 <= i < |rows| && rows[i] == r;
        assert p0[i].row == r;
      }
    }
    var p1 := JoinCountry(p0, dims);
    JoinCovers(p0, (p: JpPending) => p.row.raw.ctyCode, CodeIds(dims.country),
               (p: JpPending, id: Option<nat>) => p.(ids := p.ids.(country := id)), (p: JpPending) => p.row, rows);
    var p2 := JoinSitc(p1, dims);
    JoinCovers(p1, (p: JpPending) => p.row.raw.sitc, CodeIds(dims.sitc),
               (p: JpPending, id: Option<nat>) => p.(ids := p.ids.(sitc := id)), (p: JpPending) => p.row, rows);
    var p3 := JoinHts(p2, dims);
    JoinCovers(p2, (p: JpPending) => p.row.raw.commodityCode, HtsCodeIds(dims.hts),
               (p: JpPending, id: Option<nat>) => p.(ids := p.ids.(hts := id)), (p: JpPending) => p.row, rows);
    var p4 := JoinNaics(p3, dims);
    JoinCovers(p3, (p: JpPending) => p.row.raw.naics, CodeIds(dims.naics),
               (p: JpPending, id: Option<nat>) => p.(ids := p.ids.(naics := id)), (p: JpPending) => p.row, rows);
    var p5 := JoinDistrict(p4, dims);
    JoinCovers(p4, (p: JpPending) => p.row.raw.districtPosh, CodeIds(dims.district),
               (p: JpPending, id: Option<nat>) => p.(ids := p.ids.(district := id)), (p: JpPending) => p.row, rows);
    var p6 := JoinUnit1(p5, dims);
    JoinCovers(p5, (p: JpPending) => p.row.raw.unit1, CodeIds(dims.unit),
               (p: JpPending, id: Option<nat>) => p.(ids := p.ids.(unit1 := id)), (p: JpPending) => p.row, rows);
    JoinCovers(p6, (p: JpPending) => p.row.raw.unit2, CodeIds(dims.unit),
               (p: JpPending, id: Option<nat>) => p.(ids := p.ids.(unit2 := id)), (p: JpPending) => p.row, rows);
  }

  /** One join step keeps every row covered (some output carries it) and
      does not shrink, when attaching an id leaves the row as it was. */
  lemma JoinCovers<R(!new), W(!new), K>(ps: seq<R>, key: R -> Option<K>, dim: seq<(K, nat)>,
                                         attach: (R, Option<nat>) -> R, rowOf: R -> W, rows: seq<W>)
    requires forall p, id :: rowOf(attach(p, id)) == rowOf(p)
    requires forall r | r in rows :: exists p | p in ps :: rowOf(p) == r
    ensures var out := JoinOn(ps, key, dim, attach);
      |out| >= |ps| && forall r | r in rows :: exists p | p in out :: rowOf(p) == r
  {
    var out := JoinOn(ps, key, dim, attach);
    JoinLaws(ps, key, dim, attach);
    forall r | r in rows ensures exists p | p in out :: rowOf(p) == r {
      var q :| q in ps && rowOf(q) == r;
      var ids := Lookup(key(q), dim);
      assert ids[0] in ids;
      assert attach(q, ids[0]) in out;
    }
  }

  /** With distinct dimension codes the joins keep the JP rows one for one,
      in order, each with exactly the ids its codes select (null for a null
      code or one the dimension lacks). */
  lemma EnrichJpExact(rows: seq<JpRow>, dims: JpDims)
    requires DistinctCodes(dims)
    ensures var out := EnrichJp(rows, dims);
      |out| == |rows| && forall i | 0 <= i < |rows| :: out[i] == JpPending(rows[i], ExpectedJpIds(rows[i], dims))
  {
    var p0 := StartJp(rows);
    var p1 := JoinCountry(p0, dims);
    JoinLaws(p0, (p: JpPending) => p.row.raw.ctyCode, CodeIds(dims.country),
             (p: JpPending, id: Option<nat>) => p.(ids := p.ids.(country := id)));
    var p2 := JoinSitc(p1, dims);
    JoinLaws(p1, (p: JpPending) => p.row.raw.sitc, CodeIds(dims.sitc),
             (p: JpPending, id: Option<nat>) => p.(ids := p.ids.(sitc := id)));
    var p3 := JoinHts(p2, dims);
    JoinLaws(p2, (p: JpPending) => p.row.raw.commodityCode, HtsCodeIds(dims.hts),
             (p: JpPending, id: Option<nat>) => p.(ids := p.ids.(hts := id)));
    var p4 := JoinNaics(p3, dims);
    JoinLaws(p3, (p: JpPending) => p.row.raw.naics, CodeIds(dims.naics),
             (p: JpPending, id: Option<nat>) => p.(ids := p.ids.(naics := id)));
    var p5 := JoinDistrict(p4, dims);
    JoinLaws(p4, (p: JpPending) => p.row.raw.districtPosh, CodeIds(dims.district),
             (p: JpPending, id: Option<nat>) => p.(ids := p.ids.(district := id)));
    var p6 := JoinUnit1(p5, dims);
    JoinLaws(p5, (p: JpPending) => p.row.raw.unit1, CodeIds(dims.unit),
             (p: JpPending, id: Option<nat>) => p.(ids := p.ids.(unit1 := id)));
    var p7 := JoinUnit2(p6, dims);
    JoinLaws(p6, (p: JpPending) => p.row.raw.unit2, CodeIds(dims.unit),
             (p: JpPending, id: Option<nat>) => p.(ids := p.ids.(unit2 := id)));
    forall i | 0 <= i < |rows| ensures p7[i] == JpPending(rows[i], ExpectedJpIds(rows[i], dims)) {
      assert p1[i].row == rows[i];
      assert p2[i].row == rows[i];
      assert p3[i].row == rows[i];
      assert p4[i].row == rows[i];
      assert p5[i].row == rows[i];
      assert p6[i].row == rows[i];
    }
  }

  /** A row of jptradedata. */
  datatype JpFact = JpFact(
    date: Date, tradeId: int,
    countryId: Option<nat>, sitcId: Option<nat>, htsId: Option<nat>, naicsId: Option<nat>,
    districtId: Option<nat>, unit1Id: Option<nat>, unit2Id: Option<nat>,
    data: Option<real>, endUseI: Option<int>, endUseE: Option<int>, qty1: Option<real>, qty2: Option<real>)

  /** The final `select` of the fact columns. */
  function JpSelect(p: JpPending): JpFact {
    var r := p.row.raw;
    JpFact(p.row.date, p.row.tradeId, p.ids.country, p.ids.sitc, p.ids.hts, p.ids.naics,
           p.ids.district, p.ids.unit1, p.ids.unit2, r.data, r.endUseI, r.endUseE, r.qty1, r.qty2)
  }

  function JpFacts(ps: seq<JpPending>): (fs: seq<JpFact>)
    ensures |fs| == |ps|
    ensures forall i | 0 <= i < |ps| :: fs[i] == JpSelect(ps[i])
  {
    seq(|ps|, i requires 0 <= i < |ps| => JpSelect(ps[i]))
  }

  /** Everything `insert_int_jp` computes before it writes: the dimensions
      and the fact rows. */
  datatype JpBuild = JpBuild(dims: JpDims, facts: seq<JpFact>)

  function BuildJp(raw: seq<JpRaw>, json: seq<string>): JpBuild {
    var rows := PrepareJp(raw);
    var dims := BuildJpDims(rows, json);
    JpBuild(dims, JpFacts(EnrichJp(rows, dims)))
  }

  /** A raw row without a commodity code changes neither the dimensions nor
      the facts. */
  lemma BuildJpIgnoresNullCommodity(raw: seq<JpRaw>, json: seq<string>, r: JpRaw)
    requires r.commodityCode.None?
    ensures BuildJp(raw + [r], json) == BuildJp(raw, json)
  {
    NullCommodityIgnored(raw, r);
  }

  /** The unit join on unit_2 uses the table built from unit_1 alone: a
      unit_2 value that never occurs as a unit_1 of the rows gets a null
      unit2_id on every row it produces. */
  lemma Unit2OutsideUnit1(rows: seq<JpRow>, json: seq<string>)
    ensures var out := EnrichJp(rows, BuildJpDims(rows, json));
      forall p | p in out && p.row.raw.unit2.Some? &&
                 (forall i | 0 <= i < |rows| :: rows[i].raw.unit1 != p.row.raw.unit2) ::
        p.ids.unit2 == None
  {
    var dims := BuildJpDims(rows, json);
    var p6 := JoinUnit1(JoinDistrict(JoinNaics(JoinHts(JoinSitc(JoinCountry(StartJp(rows), dims), dims), dims), dims), dims), dims);
    UnitDimLaws(rows);
    forall p | p in JoinUnit2(p6, dims) && p.row.raw.unit2.Some? &&
               (forall i | 0 <= i < |rows| :: rows[i].raw.unit1 != p.row.raw.unit2)
      ensures p.ids.unit2 == None
    {
      Unit2Absent(p6, dims, p);
    }
  }

  /** The unit_2 join gives a null id to a row whose unit_2 is not a code of
      the unit table. */
  lemma Unit2Absent(ps: seq<JpPending>, dims: JpDims, p: JpPending)
    requires p in JoinUnit2(ps, dims)
    requires p.row.raw.unit2.Some? && p.row.raw.unit2.value !in Codes(Entries(dims.unit))
    ensures p.ids.unit2 == None
  {
    var key := (p: JpPending) => p.row.raw.unit2;
    var attach := (p: JpPending, id: Option<nat>) => p.(ids := p.ids.(unit2 := id));
    JoinOrigins(ps, key, CodeIds(dims.unit), attach);
    var q, id :| q in ps && id in Lookup(key(q), CodeIds(dims.unit)) && p == attach(q, id);
    LookupLaws(key(q), CodeIds(dims.unit));
  }

  // ---------------------------------------------------------------------
  // The organisation's facts

  /** The (country_name, id) pairs of the stored country table; a row with a
      null name matches nothing. */
  function NameIds(country: seq<DimRow<int, Desc>>): (ps: seq<(string, nat)>)
    ensures forall n, id :: (n, id) in ps <==> exists d | d in country :: d.attrs == Some(n) && d.id == id
  {
    if country == [] then []
    else
      (if country[0].attrs.Some? then [(country[0].attrs.value, country[0].id)] else []) + NameIds(country[1..])
  }

  /** The ids an organisation row collects. */
  datatype OrgIds = OrgIds(country: Option<nat>, hts: Option<nat>, unit1: Option<nat>, unit2: Option<nat>)

  const NoOrgIds := OrgIds(None, None, None, None)

  datatype OrgPending = OrgPending(row: OrgRow, ids: OrgIds)

  /** The tables the organisation's rows are joined with, as read back from
      the database. */
  datatype OrgLookups = OrgLookups(country: seq<DimRow<int, Desc>>, hts: seq<HtsEntry>, unit: seq<DimRow<string, ()>>)

  function StartOrg(rows: seq<OrgRow>): (ps: seq<OrgPending>)
    ensures |ps| == |rows|
    ensures forall i | 0 <= i < |rows| :: ps[i] == OrgPending(rows[i], NoOrgIds)
  {
    seq(|rows|, i requires 0 <= i < |rows| => OrgPending(rows[i], NoOrgIds))
  }

  function JoinOrgCountry(ps: seq<OrgPending>, t: OrgLookups): seq<OrgPending> {
    JoinOn(ps, (p: OrgPending) => p.row.raw.country, NameIds(t.country),
           (p: OrgPending, id: Option<nat>) => p.(ids := p.ids.(country := id)))
  }

  function JoinOrgHts(ps: seq<OrgPending>, t: OrgLookups): seq<OrgPending> {
    JoinOn(ps, (p: OrgPending) => p.row.raw.hts, HtsCodeIds(t.hts),
           (p: OrgPending, id: Option<nat>) => p.(ids := p.ids.(hts := id)))
  }

  function JoinOrgUnit1(ps: seq<OrgPending>, t: OrgLookups): seq<OrgPending> {
    JoinOn(ps, (p: OrgPending) => p.row.raw.unit1, CodeIds(t.unit),
           (p: OrgPending, id: Option<nat>) => p.(ids := p.ids.(unit1 := id)))
  }

  function JoinOrgUnit2(ps: seq<OrgPending>, t: OrgLookups): seq<OrgPending> {
    JoinOn(ps, (p: OrgPending) => p.row.raw.unit2, CodeIds(t.unit),
           (p: OrgPending, id: Option<nat>) => p.(ids := p.ids.(unit2 := id)))
  }

  /** The four left joins of the organisation's rows: country by name, HTS
      on the normalised commodity code, the unit table on unit_1 and on
      unit_2. No row is filtered out beforehand. */
  function EnrichOrg(rows: seq<OrgRow>, t: OrgLookups): seq<OrgPending> {
    JoinOrgUnit2(JoinOrgUnit1(JoinOrgHts(JoinOrgCountry(StartOrg(rows), t), t), t), t)
  }

  function ExpectedOrgIds(r: OrgRow, t: OrgLookups): OrgIds {
    OrgIds(Lookup(r.raw.country, NameIds(t.country))[0],
           Lookup(r.raw.hts, HtsCodeIds(t.hts))[0],
           Lookup(r.raw.unit1, CodeIds(t.unit))[0],
           Lookup(r.raw.unit2, CodeIds(t.unit))[0])
  }

  /** Country names, HTS codes and unit codes of the stored tables are
      distinct. */
  predicate DistinctLookups(t: OrgLookups) {
    && Distinct(Codes(NameIds(t.country)))
    && Distinct(Codes(HtsCodeIds(t.hts)))
    && Distinct(Codes(CodeIds(t.unit)))
  }

  /** Whatever the stored tables hold, every organisation row reaches the
      result, with a code the tables lack (or a null one) giving a null id
      rather than dropping the row. */
  lemma EnrichOrgKeepsRows(rows: seq<OrgRow>, t: OrgLookups)
    ensures var out := EnrichOrg(rows, t);
      |out| >= |rows| && forall r | r in rows :: exists p | p in out :: p.row == r
  {
    var p0 := StartOrg(rows);
    assert forall r | r in rows :: exists p | p in p0 :: p.row == r by {
      forall r | r in rows ensures exists p | p in p0 :: p.row == r {
        var i :| 0 <= i < |rows| && rows[i] == r;
        assert p0[i].row == r;
      }
    }
    var p1 := JoinOrgCountry(p0, t);
    JoinCovers(p0, (p: OrgPending) => p.row.raw.country, NameIds(t.country),
                  (p: OrgPending, id: Option<nat>) => p.(ids := p.ids.(country := id)), (p: OrgPending) => p.row, rows);
    var p2 := JoinOrgHts(p1, t);
    JoinCovers(p1, (p: OrgPending) => p.row.raw.hts, HtsCodeIds(t.hts),
                  (p: OrgPending, id: Option<nat>) => p.(ids := p.ids.(hts := id)), (p: OrgPending) => p.row, rows);
    var p3 := JoinOrgUnit1(p2, t);
    JoinCovers(p2, (p: OrgPending) => p.row.raw.unit1, CodeIds(t.unit),
                  (p: OrgPending, id: Option<nat>) => p.(ids := p.ids.(unit1 := id)), (p: OrgPending) => p.row, rows);
    JoinCovers(p3, (p: OrgPending) => p.row.raw.unit2, CodeIds(t.unit),
                  (p: OrgPending, id: Option<nat>) => p.(ids := p.ids.(unit2 := id)), (p: OrgPending) => p.row, rows);
  }

  /** With distinct names and codes in the stored tables the joins keep the
      organisation rows one for one, in order, each with the ids its
      country name and codes select. */
  lemma EnrichOrgExact(rows: seq<OrgRow>, t: OrgLookups)
    requires DistinctLookups(t)
    ensures var out := EnrichOrg(rows, t);
      |out| == |rows| && forall i | 0 <= i < |rows| :: out[i] == OrgPending(rows[i], ExpectedOrgIds(rows[i], t))
  {
    var p0 := StartOrg(rows);
    var p1 := JoinOrgCountry(p0, t);
    JoinLaws(p0, (p: OrgPending) => p.row.raw.country, NameIds(t.country),
             (p: OrgPending, id: Option<nat>) => p.(ids := p.ids.(country := id)));
    var p2 := JoinOrgHts(p1, t);
    JoinLaws(p1, (p: OrgPending) => p.row.raw.hts, HtsCodeIds(t.hts),
             (p: OrgPending, id: Option<nat>) => p.(ids := p.ids.(hts := id)));
    var p3 := JoinOrgUnit1(p2, t);
    JoinLaws(p2, (p: OrgPending) => p.row.raw.unit1, CodeIds(t.unit),
             (p: OrgPending, id: Option<nat>) => p.(ids := p.ids.(unit1 := id)));
    var p4 := JoinOrgUnit2(p3, t);
    JoinLaws(p3, (p: OrgPending) => p.row.raw.unit2, CodeIds(t.unit),
             (p: OrgPending, id: Option<nat>) => p.(ids := p.ids.(unit2 := id)));
    forall i | 0 <= i < |rows| ensures p4[i] == OrgPending(rows[i], ExpectedOrgIds(rows[i], t)) {
      assert p1[i].row == rows[i];
      assert p2[i].row == rows[i];
      assert p3[i].row == rows[i];
    }
  }

  /** A row of inttradedata. */
  datatype OrgFact = OrgFact(
    date: Date, tradeId: int,
    countryId: Option<nat>, htsId: Option<nat>, unit1Id: Option<nat>, unit2Id: Option<nat>,
    data: Option<real>, qty1: Option<real>, qty2: Option<real>)

  /** The final `select`; the value column is renamed data. */
  function OrgSelect(p: OrgPending): OrgFact {
    OrgFact(p.row.date, p.row.tradeId, p.ids.country, p.ids.hts, p.ids.unit1, p.ids.unit2,
            p.row.raw.value, p.row.raw.qty1, p.row.raw.qty2)
  }

  function OrgFacts(ps: seq<OrgPending>): (fs: seq<OrgFact>)
    ensures |fs| == |ps|
    ensures forall i | 0 <= i < |ps| :: fs[i] == OrgSelect(ps[i])
  {
    seq(|ps|, i requires 0 <= i < |ps| => OrgSelect(ps[i]))
  }

  /** Everything `insert_int_org` computes from its file and the stored
      tables. */
  function BuildOrg(raw: seq<OrgRaw>, t: OrgLookups): seq<OrgFact> {
    OrgFacts(EnrichOrg(PrepareOrg(raw), t))
  }

  /** Each raw organisation row yields at least one fact, and exactly one
      when the stored tables have distinct names and codes. */
  lemma BuildOrgCount(raw: seq<OrgRaw>, t: OrgLookups)
    ensures |BuildOrg(raw, t)| >= |raw|
    ensures DistinctLookups(t) ==> |BuildOrg(raw, t)| == |raw|
  {
    EnrichOrgKeepsRows(PrepareOrg(raw), t);
    if DistinctLookups(t) {
      EnrichOrgExact(PrepareOrg(raw), t);
    }
  }
}
