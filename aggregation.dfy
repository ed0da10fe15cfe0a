/** The aggregation engine of src/data/data_process.py: `filter_data`
    (drop rows without an HTS id, split imports from exports, group and sum
    each side, full join) and the common body of every `process_data`
    branch (coalesce the key columns, zero-fill the measures, sort, derive
    the net columns), written once and parametrised by the key columns. */
module Aggregation {
  import opened Common

  /** The key columns a view can group by. */
  datatype KeyCol = Year | FiscalYear | Qrt | Month | NaicsId | HtsId | CountryId

  /** A trade row after `conversion`: the columns the aggregation reads. */
  datatype Fact = Fact(
    year: int, month: int, fiscalYear: int, qrt: Option<int>,
    tradeId: int, htsId: Option<int>, naicsId: Option<int>, countryId: Option<int>,
    data: Option<real>, qty: real)

  /** The values of a row's key columns, in key-column order; a cell may be
      null (an id the dimension join did not resolve, a quarter of a month
      outside 1..12). */
  type Tuple = seq<Option<int>>

  function Cell(f: Fact, c: KeyCol): Option<int> {
    match c
    case Year => Some(f.year)
    case FiscalYear => Some(f.fiscalYear)
    case Qrt => f.qrt
    case Month => Some(f.month)
    case NaicsId => f.naicsId
    case HtsId => f.htsId
    case CountryId => f.countryId
  }

  function TupleOf(f: Fact, cols: seq<KeyCol>): (t: Tuple)
    ensures |t| == |cols|
    ensures forall i | 0 <= i < |cols| :: t[i] == Cell(f, cols[i])
  {
    seq(|cols|, i requires 0 <= i < |cols| => Cell(f, cols[i]))
  }

  /** A key tuple without a null cell. */
  predicate Complete(t: Tuple) {
    forall i | 0 <= i < |t| :: t[i].Some?
  }

  // ---------------------------------------------------------------------
  // filter_data: partition and group sums

  /** The rows of one trade direction among those with an HTS id. */
  function Side(rows: seq<Fact>, trade: int): (s: seq<Fact>)
    ensures forall f :: f in s <==> f in rows && f.htsId.Some? && f.tradeId == trade
  {
    if rows == [] then []
    else
      var rest := Side(rows[1..], trade);
      assert forall f :: f in rows <==> f == rows[0] || f in rows[1..];
      if rows[0].htsId.Some? && rows[0].tradeId == trade then [rows[0]] + rest else rest
  }

  lemma {:induction false} SideConcat(a: seq<Fact>, b: seq<Fact>, trade: int)
    ensures Side(a + b, trade) == Side(a, trade) + Side(b, trade)
  {
    if a == [] {
      assert a + b == b;
    } else {
      SideConcat(a[1..], b, trade);
      assert (a + b)[0] == a[0];
      assert (a + b)[1..] == a[1..] + b;
    }
  }

  function Tuples(rows: seq<Fact>, cols: seq<KeyCol>): (ts: seq<Tuple>)
    ensures |ts| == |rows|
    ensures forall i | 0 <= i < |rows| :: ts[i] == TupleOf(rows[i], cols)
  {
    seq(|rows|, i requires 0 <= i < |rows| => TupleOf(rows[i], cols))
  }

  /** Sum of `data` over the rows whose key tuple is t; a null value adds 0. */
  function SumData(rows: seq<Fact>, cols: seq<KeyCol>, t: Tuple): real {
    if rows == [] then 0.0
    else (if TupleOf(rows[0], cols) == t then rows[0].data.GetOr(0.0) else 0.0) + SumData(rows[1..], cols, t)
  }

  /** Sum of the converted quantity over the rows whose key tuple is t. */
  function SumQty(rows: seq<Fact>, cols: seq<KeyCol>, t: Tuple): real {
    if rows == [] then 0.0
    else (if TupleOf(rows[0], cols) == t then rows[0].qty else 0.0) + SumQty(rows[1..], cols, t)
  }

  lemma {:induction false} SumsOfAbsentKey(rows: seq<Fact>, cols: seq<KeyCol>, t: Tuple)
    requires t !in Tuples(rows, cols)
    ensures SumData(rows, cols, t) == 0.0 && SumQty(rows, cols, t) == 0.0
  {
    if rows != [] {
      assert Tuples(rows, cols)[0] == TupleOf(rows[0], cols);
      assert forall i | 0 <= i < |rows| - 1 :: Tuples(rows[1..], cols)[i] == Tuples(rows, cols)[i + 1];
      SumsOfAbsentKey(rows[1..], cols, t);
    }
  }

  /** One group of `group_by(cols).agg(pl.sum("data", "qty"))`. */
  datatype Group = Group(key: Tuple, total: real, qty: real)

  function GroupSum(rows: seq<Fact>, cols: seq<KeyCol>): seq<Group> {
    var ks := Dedup(Tuples(rows, cols));
    seq(|ks|, i requires 0 <= i < |ks| => Group(ks[i], SumData(rows, cols, ks[i]), SumQty(rows, cols, ks[i])))
  }

  function GroupKeys(gs: seq<Group>): (ks: seq<Tuple>)
    ensures |ks| == |gs|
    ensures forall i | 0 <= i < |gs| :: ks[i] == gs[i].key
  {
    if gs == [] then [] else [gs[0].key] + GroupKeys(gs[1..])
  }

  /** Grouping yields one group per key tuple occurring among the rows, no
      other group, and in each group the sums over exactly its rows. */
  lemma GroupSumLaws(rows: seq<Fact>, cols: seq<KeyCol>)
    ensures var gs := GroupSum(rows, cols);
      && Distinct(GroupKeys(gs))
      && (forall t :: t in GroupKeys(gs) <==> t in Tuples(rows, cols))
      && (forall g | g in gs ::
            |g.key| == |cols| && g.total == SumData(rows, cols, g.key) && g.qty == SumQty(rows, cols, g.key))
  {
    var gs := GroupSum(rows, cols);
    var ks := Dedup(Tuples(rows, cols));
    assert GroupKeys(gs) == ks;
    forall g | g in gs
      ensures |g.key| == |cols| && g.total == SumData(rows, cols, g.key) && g.qty == SumQty(rows, cols, g.key)
    {
      var i :| 0 <= i < |gs| && gs[i] == g;
      assert ks[i] in Tuples(rows, cols);
    }
  }

  // ---------------------------------------------------------------------
  // The full join

  /** A row of the full join: the key columns of each side (all null on a
      side without a group) and the four measures (null likewise). */
  datatype Joined = Joined(
    leftKey: Tuple, rightKey: Tuple,
    imports: Option<real>, importsQty: Option<real>,
    exports: Option<real>, exportsQty: Option<real>)

  function Nulls(n: nat): (t: Tuple)
    ensures |t| == n
    ensures forall i | 0 <= i < n :: t[i] == None
  {
    seq(n, _ => None)
  }

  /** The group a key joins with: equal keys match, but a null cell never
      matches anything, so a key with a null cell has no partner. */
  function MatchIn(k: Tuple, gs: seq<Group>): (m: Option<Group>)
    ensures m.Some? ==> m.value in gs && m.value.key == k && Complete(k)
    ensures m.None? ==> !Complete(k) || k !in GroupKeys(gs)
  {
    if gs == [] then None
    else if gs[0].key == k && Complete(k) then Some(gs[0])
    else
      var m := MatchIn(k, gs[1..]);
      assert GroupKeys(gs) == [gs[0].key] + GroupKeys(gs[1..]);
      m
  }

  function JoinLeft(g: Group, exports: seq<Group>, width: nat): Joined {
    match MatchIn(g.key, exports)
    case Some(h) => Joined(g.key, h.key, Some(g.total), Some(g.qty), Some(h.total), Some(h.qty))
    case None => Joined(g.key, Nulls(width), Some(g.total), Some(g.qty), None, None)
  }

  function JoinLefts(imports: seq<Group>, exports: seq<Group>, width: nat): (js: seq<Joined>)
    ensures |js| == |imports|
    ensures forall i | 0 <= i < |imports| :: js[i] == JoinLeft(imports[i], exports, width)
  {
    if imports == [] then [] else [JoinLeft(imports[0], exports, width)] + JoinLefts(imports[1..], exports, width)
  }

  /** The export groups no import group joined with, as join rows. */
  function RightOnly(imports: seq<Group>, exports: seq<Group>, width: nat): (js: seq<Joined>)
    ensures forall j | j in js :: exists h | h in exports ::
      MatchIn(h.key, imports).None? && j == Joined(Nulls(width), h.key, None, None, Some(h.total), Some(h.qty))
  {
    if exports == [] then []
    else
      var h := exports[0];
      var rest := RightOnly(imports, exports[1..], width);
      (if MatchIn(h.key, imports).None? then [Joined(Nulls(width), h.key, None, None, Some(h.total), Some(h.qty))] else [])
      + rest
  }

  /** `imports.join(exports, on=cols, how="full")`. */
  function FullJoin(imports: seq<Group>, exports: seq<Group>, width: nat): seq<Joined> {
    JoinLefts(imports, exports, width) + RightOnly(imports, exports, width)
  }

  // ---------------------------------------------------------------------
  // Coalesce, zero fill, net columns

  /** Each key column takes the left (imports) value when it is not null and
      the `_right` (exports) value otherwise. */
  function Coalesce(left: Tuple, right: Tuple): (k: Tuple)
    ensures |k| == |left|
  {
    seq(|left|, i requires 0 <= i < |left| => if left[i].Some? || i >= |right| then left[i] else right[i])
  }

  /** One row of a `process_data` view. */
  datatype AggRow = AggRow(
    key: Tuple, imports: real, exports: real, importsQty: real, exportsQty: real,
    netExports: real, netQty: real)

  function Finish(j: Joined): AggRow {
    var imports, exports := j.imports.GetOr(0.0), j.exports.GetOr(0.0);
    var importsQty, exportsQty := j.importsQty.GetOr(0.0), j.exportsQty.GetOr(0.0);
    AggRow(Coalesce(j.leftKey, j.rightKey), imports, exports, importsQty, exportsQty,
           exports - imports, exportsQty - importsQty)
  }

  function FinishAll(js: seq<Joined>): (rs: seq<AggRow>)
    ensures |rs| == |js|
    ensures forall i | 0 <= i < |js| :: rs[i] == Finish(js[i])
  {
    if js == [] then [] else [Finish(js[0])] + FinishAll(js[1..])
  }

  // ---------------------------------------------------------------------
  // Sorting by the key tuple (null before any value, as polars sorts)

  predicate CellLess(a: Option<int>, b: Option<int>) {
    (a.None? && b.Some?) || (a.Some? && b.Some? && a.value < b.value)
  }

  predicate TupleLeq(a: Tuple, b: Tuple) {
    if a == [] then true
    else if b == [] then false
    else CellLess(a[0], b[0]) || (a[0] == b[0] && TupleLeq(a[1..], b[1..]))
  }

  lemma {:induction false} TupleLeqTotal(a: Tuple, b: Tuple)
    ensures TupleLeq(a, b) || TupleLeq(b, a)
  {
    if a != [] && b != [] && a[0] == b[0] {
      TupleLeqTotal(a[1..], b[1..]);
    }
  }

  lemma {:induction false} TupleLeqTransitive(a: Tuple, b: Tuple, c: Tuple)
    requires TupleLeq(a, b) && TupleLeq(b, c)
    ensures TupleLeq(a, c)
  {
    if a != [] && b != [] && c != [] && a[0] == b[0] && b[0] == c[0] {
      TupleLeqTransitive(a[1..], b[1..], c[1..]);
    }
  }

  predicate SortedByKey(rows: seq<AggRow>) {
    forall i, j | 0 <= i < j < |rows| :: TupleLeq(rows[i].key, rows[j].key)
  }

  function KeysOf(rows: seq<AggRow>): (ks: seq<Tuple>)
    ensures |ks| == |rows|
    ensures forall i | 0 <= i < |rows| :: ks[i] == rows[i].key
  {
    if rows == [] then [] else [rows[0].key] + KeysOf(rows[1..])
  }

  function InsertByKey(x: AggRow, rows: seq<AggRow>): seq<AggRow> {
    if rows == [] then [x]
    else if TupleLeq(x.key, rows[0].key) then [x] + rows
    else [rows[0]] + InsertByKey(x, rows[1..])
  }

  lemma {:induction false} InsertPermutes(x: AggRow, rows: seq<AggRow>)
    ensures multiset(InsertByKey(x, rows)) == multiset(rows) + multiset{x}
  {
    if rows != [] {
      assert rows == [rows[0]] + rows[1..];
      if !TupleLeq(x.key, rows[0].key) {
        InsertPermutes(x, rows[1..]);
      }
    }
  }

  lemma {:induction false} InsertKeys(x: AggRow, rows: seq<AggRow>)
    ensures multiset(KeysOf(InsertByKey(x, rows))) == multiset(KeysOf(rows)) + multiset{x.key}
  {
    if rows != [] {
      var ks := KeysOf(rows);
      assert ks == [rows[0].key] + KeysOf(rows[1..]);
      if TupleLeq(x.key, rows[0].key) {
        assert KeysOf([x] + rows) == [x.key] + ks;
      } else {
        var rest := InsertByKey(x, rows[1..]);
        InsertKeys(x, rows[1..]);
        assert KeysOf([rows[0]] + rest) == [rows[0].key] + KeysOf(rest);
      }
    }
  }

  lemma {:induction false} InsertSorted(x: AggRow, rows: seq<AggRow>)
    requires SortedByKey(rows)
    ensures SortedByKey(InsertByKey(x, rows))
  {
    if rows == [] {
    } else if TupleLeq(x.key, rows[0].key) {
      forall j | 0 <= j < |rows| ensures TupleLeq(x.key, rows[j].key) {
        if j > 0 { TupleLeqTransitive(x.key, rows[0].key, rows[j].key); }
      }
    } else {
      TupleLeqTotal(x.key, rows[0].key);
      var rest := InsertByKey(x, rows[1..]);
      InsertSorted(x, rows[1..]);
      InsertPermutes(x, rows[1..]);
      forall j | 0 <= j < |rest| ensures TupleLeq(rows[0].key, rest[j].key) {
        assert rest[j] in multiset(rest);
        assert rest[j] == x || rest[j] in rows[1..];
      }
    }
  }

  /** `.sort(cols)`: ascending by the key tuple (an insertion sort; polars
      does not promise which of two equal keys comes first). */
  function SortByKey(rows: seq<AggRow>): seq<AggRow> {
    if rows == [] then [] else InsertByKey(rows[0], SortByKey(rows[1..]))
  }

  lemma {:induction false} SortPermutes(rows: seq<AggRow>)
    ensures multiset(SortByKey(rows)) == multiset(rows)
  {
    if rows != [] {
      SortPermutes(rows[1..]);
      InsertPermutes(rows[0], SortByKey(rows[1..]));
      assert rows == [rows[0]] + rows[1..];
    }
  }

  lemma {:induction false} SortKeys(rows: seq<AggRow>)
    ensures multiset(KeysOf(SortByKey(rows))) == multiset(KeysOf(rows))
  {
    if rows != [] {
      SortKeys(rows[1..]);
      InsertKeys(rows[0], SortByKey(rows[1..]));
      assert KeysOf(rows) == [rows[0].key] + KeysOf(rows[1..]);
    }
  }

  lemma {:induction false} SortSorted(rows: seq<AggRow>)
    ensures SortedByKey(SortByKey(rows))
  {
    if rows != [] {
      SortSorted(rows[1..]);
      InsertSorted(rows[0], SortByKey(rows[1..]));
    }
  }

  /** Sorting orders the rows by key and is a permutation of them. */
  lemma SortByKeyLaws(rows: seq<AggRow>)
    ensures SortedByKey(SortByKey(rows))
    ensures multiset(SortByKey(rows)) == multiset(rows)
    ensures multiset(KeysOf(SortByKey(rows))) == multiset(KeysOf(rows))
  {
    SortPermutes(rows);
    SortKeys(rows);
    SortSorted(rows);
  }

  // ---------------------------------------------------------------------
  // The engine

  /** One `process_data` view over converted rows, grouped by `cols`. */
  function Aggregate(base: seq<Fact>, cols: seq<KeyCol>): seq<AggRow> {
    var imports := GroupSum(Side(base, 1), cols);
    var exports := GroupSum(Side(base, 2), cols);
    SortByKey(FinishAll(FullJoin(imports, exports, |cols|)))
  }

  /** Whether the key tuple occurs among the rows. */
  predicate Occurs(rows: seq<Fact>, cols: seq<KeyCol>, t: Tuple) {
    t in Tuples(rows, cols)
  }

  /** How many output rows carry key t: one for a complete tuple occurring
      on either side; for a tuple with a null cell, which the join cannot
      match, one per side it occurs on. */
  function ExpectedCount(imports: seq<Fact>, exports: seq<Fact>, cols: seq<KeyCol>, t: Tuple): nat {
    if Complete(t) then (if Occurs(imports, cols, t) || Occurs(exports, cols, t) then 1 else 0)
    else (if Occurs(imports, cols, t) then 1 else 0) + (if Occurs(exports, cols, t) then 1 else 0)
  }

  /** A row that carries its key's import sums and zero exports. */
  predicate CarriesImports(r: AggRow, imports: seq<Fact>, cols: seq<KeyCol>) {
    r.imports == SumData(imports, cols, r.key) && r.importsQty == SumQty(imports, cols, r.key) &&
    r.exports == 0.0 && r.exportsQty == 0.0
  }

  /** A row that carries its key's export sums and zero imports. */
  predicate CarriesExports(r: AggRow, exports: seq<Fact>, cols: seq<KeyCol>) {
    r.imports == 0.0 && r.importsQty == 0.0 &&
    r.exports == SumData(exports, cols, r.key) && r.exportsQty == SumQty(exports, cols, r.key)
  }

  /** The measures of an output row are the sums of its key's rows: both
      sides for a complete key (0 for a side without rows); for a key with
      a null cell, the sums of a side the key occurs on and zeros for the
      other. */
  predicate RowLaw(r: AggRow, imports: seq<Fact>, exports: seq<Fact>, cols: seq<KeyCol>) {
    if Complete(r.key) then
      r.imports == SumData(imports, cols, r.key) && r.importsQty == SumQty(imports, cols, r.key) &&
      r.exports == SumData(exports, cols, r.key) && r.exportsQty == SumQty(exports, cols, r.key)
    else
      (Occurs(imports, cols, r.key) && CarriesImports(r, imports, cols)) ||
      (Occurs(exports, cols, r.key) && CarriesExports(r, exports, cols))
  }

  lemma CoalesceWithNulls(k: Tuple, n: nat)
    ensures Coalesce(k, Nulls(n)) == k
    ensures Coalesce(k, k) == k
    ensures n == |k| ==> Coalesce(Nulls(n), k) == k
  {
  }

  lemma {:induction false} KeysOfConcat(a: seq<AggRow>, b: seq<AggRow>)
    ensures KeysOf(a + b) == KeysOf(a) + KeysOf(b)
  {
  }

  lemma {:induction false} DistinctCount<T>(s: seq<T>, x: T)
    requires Distinct(s)
    ensures multiset(s)[x] == if x in s then 1 else 0
  {
    if s != [] {
      assert s == [s[0]] + s[1..];
      DistinctCount(s[1..], x);
    }
  }

  /** Coalescing an import group's join row gives back the group's key. */
  lemma LeftKeys(imports: seq<Group>, exports: seq<Group>, width: nat)
    ensures KeysOf(FinishAll(JoinLefts(imports, exports, width))) == GroupKeys(imports)
  {
    var rs := FinishAll(JoinLefts(imports, exports, width));
    forall i | 0 <= i < |imports| ensures rs[i].key == imports[i].key {
      CoalesceWithNulls(imports[i].key, width);
    }
  }

  /** The keys of the export groups no import group joined with. */
  function RightKeys(imports: seq<Group>, exports: seq<Group>): seq<Tuple> {
    if exports == [] then []
    else (if MatchIn(exports[0].key, imports).None? then [exports[0].key] else []) + RightKeys(imports, exports[1..])
  }

  lemma {:induction false} RightOnlyKeys(imports: seq<Group>, exports: seq<Group>, width: nat)
    requires forall h | h in exports :: |h.key| == width
    ensures KeysOf(FinishAll(RightOnly(imports, exports, width))) == RightKeys(imports, exports)
  {
    if exports != [] {
      var h := exports[0];
      var head := if MatchIn(h.key, imports).None? then [Joined(Nulls(width), h.key, None, None, Some(h.total), Some(h.qty))] else [];
      var rest := RightOnly(imports, exports[1..], width);
      assert RightOnly(imports, exports, width) == head + rest;
      FinishAllConcat(head, rest);
      KeysOfConcat(FinishAll(head), FinishAll(rest));
      CoalesceWithNulls(h.key, width);
      RightOnlyKeys(imports, exports[1..], width);
    }
  }

  /** Each export group without a partner contributes its key exactly once. */
  lemma {:induction false} RightCount(imports: seq<Group>, exports: seq<Group>, t: Tuple)
    requires Distinct(GroupKeys(exports))
    ensures multiset(RightKeys(imports, exports))[t]
      == if t in GroupKeys(exports) && MatchIn(t, imports).None? then 1 else 0
  {
    if exports != [] {
      var h := exports[0];
      assert GroupKeys(exports) == [h.key] + GroupKeys(exports[1..]);
      assert Distinct(GroupKeys(exports[1..]));
      RightCount(imports, exports[1..], t);
      if h.key == t {
        assert t !in GroupKeys(exports[1..]);
      }
    }
  }

  lemma MatchNone(t: Tuple, gs: seq<Group>)
    ensures MatchIn(t, gs).None? <==> !(Complete(t) && t in GroupKeys(gs))
  {
    var m := MatchIn(t, gs);
    if m.Some? {
      var i :| 0 <= i < |gs| && gs[i] == m.value;
    }
  }

  lemma {:induction false} FinishAllConcat(a: seq<Joined>, b: seq<Joined>)
    ensures FinishAll(a + b) == FinishAll(a) + FinishAll(b)
  {
  }

  /** The keys of the rows before sorting. */
  lemma PreSortKeys(gi: seq<Group>, ge: seq<Group>, width: nat)
    requires forall h | h in ge :: |h.key| == width
    ensures KeysOf(FinishAll(FullJoin(gi, ge, width))) == GroupKeys(gi) + RightKeys(gi, ge)
  {
    FinishAllConcat(JoinLefts(gi, ge, width), RightOnly(gi, ge, width));
    KeysOfConcat(FinishAll(JoinLefts(gi, ge, width)), FinishAll(RightOnly(gi, ge, width)));
    LeftKeys(gi, ge, width);
    RightOnlyKeys(gi, ge, width);
  }

  /** The rows before sorting: each key occurs as often as ExpectedCount says. */
  lemma PreSortCount(base: seq<Fact>, cols: seq<KeyCol>, t: Tuple)
    ensures var imp, exp := Side(base, 1), Side(base, 2);
      var joined := FullJoin(GroupSum(imp, cols), GroupSum(exp, cols), |cols|);
      multiset(KeysOf(FinishAll(joined)))[t] == ExpectedCount(imp, exp, cols, t)
  {
    var imp, exp := Side(base, 1), Side(base, 2);
    var gi, ge := GroupSum(imp, cols), GroupSum(exp, cols);
    GroupSumLaws(imp, cols);
    GroupSumLaws(exp, cols);
    PreSortKeys(gi, ge, |cols|);
    assert multiset(GroupKeys(gi) + RightKeys(gi, ge))[t]
      == multiset(GroupKeys(gi))[t] + multiset(RightKeys(gi, ge))[t];
    DistinctCount(GroupKeys(gi), t);
    RightCount(gi, ge, t);
    MatchNone(t, gi);
  }

  /** The row an import group gives satisfies the row law. */
  lemma LeftRowLaw(imp: seq<Fact>, exp: seq<Fact>, cols: seq<KeyCol>, g: Group, ge: seq<Group>)
    requires |g.key| == |cols| && g.total == SumData(imp, cols, g.key) && g.qty == SumQty(imp, cols, g.key)
    requires g.key in Tuples(imp, cols)
    requires forall h | h in ge :: h.total == SumData(exp, cols, h.key) && h.qty == SumQty(exp, cols, h.key)
    requires forall t :: t in GroupKeys(ge) <==> t in Tuples(exp, cols)
    ensures RowLaw(Finish(JoinLeft(g, ge, |cols|)), imp, exp, cols)
  {
    CoalesceWithNulls(g.key, |cols|);
    match MatchIn(g.key, ge)
    case Some(h) =>
    case None =>
      if Complete(g.key) {
        SumsOfAbsentKey(exp, cols, g.key);
      }
  }

  /** The row an export group without a partner gives satisfies the row law. */
  lemma RightRowLaw(imp: seq<Fact>, exp: seq<Fact>, cols: seq<KeyCol>, h: Group, gi: seq<Group>)
    requires |h.key| == |cols| && h.total == SumData(exp, cols, h.key) && h.qty == SumQty(exp, cols, h.key)
    requires h.key in Tuples(exp, cols)
    requires MatchIn(h.key, gi).None?
    requires forall t :: t in GroupKeys(gi) <==> t in Tuples(imp, cols)
    ensures RowLaw(Finish(Joined(Nulls(|cols|), h.key, None, None, Some(h.total), Some(h.qty))), imp, exp, cols)
  {
    CoalesceWithNulls(h.key, |cols|);
    if Complete(h.key) {
      assert h.key !in GroupKeys(gi);
      SumsOfAbsentKey(imp, cols, h.key);
    }
  }

  /** The rows the import groups give satisfy the row law. */
  lemma LeftRowsLaw(imp: seq<Fact>, exp: seq<Fact>, cols: seq<KeyCol>, gi: seq<Group>, ge: seq<Group>, r: AggRow)
    requires forall g | g in gi :: |g.key| == |cols| && g.total == SumData(imp, cols, g.key) && g.qty == SumQty(imp, cols, g.key)
    requires forall t :: t in GroupKeys(gi) <==> t in Tuples(imp, cols)
    requires forall h | h in ge :: h.total == SumData(exp, cols, h.key) && h.qty == SumQty(exp, cols, h.key)
    requires forall t :: t in GroupKeys(ge) <==> t in Tuples(exp, cols)
    requires r in FinishAll(JoinLefts(gi, ge, |cols|))
    ensures RowLaw(r, imp, exp, cols)
  {
    var rs := FinishAll(JoinLefts(gi, ge, |cols|));
    var n :| 0 <= n < |rs| && rs[n] == r;
    assert gi[n] in gi && GroupKeys(gi)[n] == gi[n].key;
    LeftRowLaw(imp, exp, cols, gi[n], ge);
  }

  /** The rows the unmatched export groups give satisfy the row law. */
  lemma RightRowsLaw(imp: seq<Fact>, exp: seq<Fact>, cols: seq<KeyCol>, gi: seq<Group>, ge: seq<Group>, r: AggRow)
    requires forall h | h in ge :: |h.key| == |cols| && h.total == SumData(exp, cols, h.key) && h.qty == SumQty(exp, cols, h.key)
    requires forall t :: t in GroupKeys(ge) <==> t in Tuples(exp, cols)
    requires forall t :: t in GroupKeys(gi) <==> t in Tuples(imp, cols)
    requires r in FinishAll(RightOnly(gi, ge, |cols|))
    ensures RowLaw(r, imp, exp, cols)
  {
    var right := RightOnly(gi, ge, |cols|);
    var rs := FinishAll(right);
    var n :| 0 <= n < |rs| && rs[n] == r;
    assert right[n] in right;
    var h :| h in ge && MatchIn(h.key, gi).None? &&
      right[n] == Joined(Nulls(|cols|), h.key, None, None, Some(h.total), Some(h.qty));
    var m :| 0 <= m < |ge| && ge[m] == h;
    assert GroupKeys(ge)[m] == h.key;
    RightRowLaw(imp, exp, cols, h, gi);
  }

  /** Every row before sorting satisfies the row law. */
  lemma PreSortRowLaw(base: seq<Fact>, cols: seq<KeyCol>, r: AggRow)
    requires r in FinishAll(FullJoin(GroupSum(Side(base, 1), cols), GroupSum(Side(base, 2), cols), |cols|))
    ensures RowLaw(r, Side(base, 1), Side(base, 2), cols)
  {
    var imp, exp := Side(base, 1), Side(base, 2);
    var gi, ge := GroupSum(imp, cols), GroupSum(exp, cols);
    GroupSumLaws(imp, cols);
    GroupSumLaws(exp, cols);
    FinishAllConcat(JoinLefts(gi, ge, |cols|), RightOnly(gi, ge, |cols|));
    if r in FinishAll(JoinLefts(gi, ge, |cols|)) {
      LeftRowsLaw(imp, exp, cols, gi, ge, r);
    } else {
      RightRowsLaw(imp, exp, cols, gi, ge, r);
    }
  }

  /** Each export group without a partner gives its join row. */
  lemma {:induction false} RightOnlyHas(gi: seq<Group>, ge: seq<Group>, width: nat, h: Group)
    requires h in ge && MatchIn(h.key, gi).None?
    ensures Joined(Nulls(width), h.key, None, None, Some(h.total), Some(h.qty)) in RightOnly(gi, ge, width)
  {
    if ge[0] != h {
      assert h in ge[1..];
      RightOnlyHas(gi, ge[1..], width, h);
    }
  }

  /** An import group whose key has a null cell finds no partner, so its
      row carries the group's sums and zero exports. */
  lemma NullKeyImportRow(imp: seq<Fact>, cols: seq<KeyCol>, gi: seq<Group>, ge: seq<Group>, t: Tuple)
    requires !Complete(t) && t in GroupKeys(gi)
    requires forall g | g in gi :: |g.key| == |cols| && g.total == SumData(imp, cols, g.key) && g.qty == SumQty(imp, cols, g.key)
    ensures exists r | r in FinishAll(JoinLefts(gi, ge, |cols|)) :: r.key == t && CarriesImports(r, imp, cols)
  {
    var rs := FinishAll(JoinLefts(gi, ge, |cols|));
    var i :| 0 <= i < |gi| && GroupKeys(gi)[i] == t;
    var g := gi[i];
    assert g in gi && g.key == t;
    CoalesceWithNulls(t, |cols|);
    assert MatchIn(t, ge).None?;
    assert rs[i] == Finish(JoinLeft(g, ge, |cols|));
    assert rs[i].key == t && CarriesImports(rs[i], imp, cols);
  }

  /** An export group whose key has a null cell is never matched, so it
      gives a row of its own with the group's sums and zero imports. */
  lemma NullKeyExportRow(exp: seq<Fact>, cols: seq<KeyCol>, gi: seq<Group>, ge: seq<Group>, t: Tuple)
    requires !Complete(t) && t in GroupKeys(ge)
    requires forall h | h in ge :: |h.key| == |cols| && h.total == SumData(exp, cols, h.key) && h.qty == SumQty(exp, cols, h.key)
    ensures exists r | r in FinishAll(RightOnly(gi, ge, |cols|)) :: r.key == t && CarriesExports(r, exp, cols)
  {
    var j :| 0 <= j < |ge| && GroupKeys(ge)[j] == t;
    var h := ge[j];
    assert h in ge && h.key == t;
    assert MatchIn(t, gi).None?;
    RightOnlyHas(gi, ge, |cols|, h);
    var right := RightOnly(gi, ge, |cols|);
    var jn := Joined(Nulls(|cols|), t, None, None, Some(h.total), Some(h.qty));
    var n :| 0 <= n < |right| && right[n] == jn;
    CoalesceWithNulls(t, |cols|);
    var r := FinishAll(right)[n];
    assert r == Finish(jn);
    assert r.key == t && CarriesExports(r, exp, cols);
  }

  lemma PermutedHas(a: seq<AggRow>, b: seq<AggRow>, out: seq<AggRow>, r: AggRow)
    requires multiset(out) == multiset(a + b) && (r in a || r in b)
    ensures r in out
  {
    assert r in multiset(a + b);
    assert r in multiset(out);
  }

  /** The view keeps the import row of a null key: sorting only permutes. */
  lemma NullKeyImportKept(imp: seq<Fact>, cols: seq<KeyCol>, gi: seq<Group>, ge: seq<Group>, out: seq<AggRow>, t: Tuple)
    requires !Complete(t) && t in GroupKeys(gi)
    requires forall g | g in gi :: |g.key| == |cols| && g.total == SumData(imp, cols, g.key) && g.qty == SumQty(imp, cols, g.key)
    requires multiset(out) == multiset(FinishAll(FullJoin(gi, ge, |cols|)))
    ensures exists r | r in out :: r.key == t && CarriesImports(r, imp, cols)
  {
    var left, right := FinishAll(JoinLefts(gi, ge, |cols|)), FinishAll(RightOnly(gi, ge, |cols|));
    FinishAllConcat(JoinLefts(gi, ge, |cols|), RightOnly(gi, ge, |cols|));
    NullKeyImportRow(imp, cols, gi, ge, t);
    var r :| r in left && r.key == t && CarriesImports(r, imp, cols);
    PermutedHas(left, right, out, r);
  }

  /** The view keeps the export row of a null key: sorting only permutes. */
  lemma NullKeyExportKept(exp: seq<Fact>, cols: seq<KeyCol>, gi: seq<Group>, ge: seq<Group>, out: seq<AggRow>, t: Tuple)
    requires !Complete(t) && t in GroupKeys(ge)
    requires forall h | h in ge :: |h.key| == |cols| && h.total == SumData(exp, cols, h.key) && h.qty == SumQty(exp, cols, h.key)
    requires multiset(out) == multiset(FinishAll(FullJoin(gi, ge, |cols|)))
    ensures exists r | r in out :: r.key == t && CarriesExports(r, exp, cols)
  {
    var left, right := FinishAll(JoinLefts(gi, ge, |cols|)), FinishAll(RightOnly(gi, ge, |cols|));
    FinishAllConcat(JoinLefts(gi, ge, |cols|), RightOnly(gi, ge, |cols|));
    NullKeyExportRow(exp, cols, gi, ge, t);
    var r :| r in right && r.key == t && CarriesExports(r, exp, cols);
    PermutedHas(left, right, out, r);
  }

  /** A key with a null cell is never matched by the join, so each side it
      occurs on keeps a row of its own in the view: one with the key's
      import sums and zero exports, one with its export sums and zero
      imports. With the count law of AggregateLaws these are all its rows. */
  lemma AggregateNullKeyRows(base: seq<Fact>, cols: seq<KeyCol>, t: Tuple)
    requires !Complete(t)
    ensures var out, imp, exp := Aggregate(base, cols), Side(base, 1), Side(base, 2);
      && (Occurs(imp, cols, t) ==> exists r | r in out :: r.key == t && CarriesImports(r, imp, cols))
      && (Occurs(exp, cols, t) ==> exists r | r in out :: r.key == t && CarriesExports(r, exp, cols))
  {
    var imp, exp := Side(base, 1), Side(base, 2);
    var gi, ge := GroupSum(imp, cols), GroupSum(exp, cols);
    GroupSumLaws(imp, cols);
    GroupSumLaws(exp, cols);
    SortByKeyLaws(FinishAll(FullJoin(gi, ge, |cols|)));
    if Occurs(imp, cols, t) {
      NullKeyImportKept(imp, cols, gi, ge, Aggregate(base, cols), t);
    }
    if Occurs(exp, cols, t) {
      NullKeyExportKept(exp, cols, gi, ge, Aggregate(base, cols), t);
    }
  }

  /** The laws of a view: sorted by key; every key tuple of an import or an
      export row appears (once when it has no null cell) and no other; each
      row's measures are the sums of its key's rows; and every row carries
      net_exports = exports - imports and net_qty = exports_qty - imports_qty. */
  lemma AggregateLaws(base: seq<Fact>, cols: seq<KeyCol>)
    ensures var out := Aggregate(base, cols);
      var imp, exp := Side(base, 1), Side(base, 2);
      && SortedByKey(out)
      && (forall t :: multiset(KeysOf(out))[t] == ExpectedCount(imp, exp, cols, t))
      && (forall r | r in out :: RowLaw(r, imp, exp, cols))
      && (forall r | r in out :: r.netExports == r.exports - r.imports && r.netQty == r.exportsQty - r.importsQty)
  {
    var imp, exp := Side(base, 1), Side(base, 2);
    var pre := FinishAll(FullJoin(GroupSum(imp, cols), GroupSum(exp, cols), |cols|));
    var out := Aggregate(base, cols);
    SortByKeyLaws(pre);
    forall t ensures multiset(KeysOf(out))[t] == ExpectedCount(imp, exp, cols, t) {
      PreSortCount(base, cols, t);
    }
    forall r | r in out
      ensures RowLaw(r, imp, exp, cols)
      ensures r.netExports == r.exports - r.imports && r.netQty == r.exportsQty - r.importsQty
    {
      assert r in multiset(out);
      var n :| 0 <= n < |pre| && pre[n] == r;
      PreSortRowLaw(base, cols, r);
    }
  }

  /** Coverage and uniqueness of the output keys: an output key is a
      key of some import or export row, every such key is an output key,
      and a key without a null cell is carried by exactly one row. */
  lemma AggregateCoverage(base: seq<Fact>, cols: seq<KeyCol>, t: Tuple)
    ensures var out := Aggregate(base, cols);
      var imp, exp := Side(base, 1), Side(base, 2);
      && (t in KeysOf(out) <==> Occurs(imp, cols, t) || Occurs(exp, cols, t))
      && (Complete(t) && t in KeysOf(out) ==> multiset(KeysOf(out))[t] == 1)
  {
    var imp, exp := Side(base, 1), Side(base, 2);
    var pre := FinishAll(FullJoin(GroupSum(imp, cols), GroupSum(exp, cols), |cols|));
    SortByKeyLaws(pre);
    PreSortCount(base, cols, t);
    var ks := KeysOf(Aggregate(base, cols));
    assert multiset(ks)[t] == ExpectedCount(imp, exp, cols, t);
    assert t in ks <==> t in multiset(ks);
  }

  lemma SideOfIgnored(f: Fact, trade: int)
    requires f.htsId.None? || (f.tradeId != 1 && f.tradeId != 2)
    requires trade == 1 || trade == 2
    ensures Side([f], trade) == []
  {
    assert [f][1..] == [];
  }

  /** Rows without an HTS id, or whose trade id is neither 1 nor 2, do not
      change any view. */
  lemma IgnoredRowsChangeNothing(base: seq<Fact>, cols: seq<KeyCol>, f: Fact)
    requires f.htsId.None? || (f.tradeId != 1 && f.tradeId != 2)
    ensures Aggregate(base + [f], cols) == Aggregate(base, cols)
  {
    SideConcat(base, [f], 1);
    SideConcat(base, [f], 2);
    SideOfIgnored(f, 1);
    SideOfIgnored(f, 2);
    assert Side(base + [f], 1) == Side(base, 1) + [] == Side(base, 1);
    assert Side(base + [f], 2) == Side(base, 2) + [] == Side(base, 2);
  }

  /** One import row and one export row of the same month and commodity
      give a single monthly commodity row: imports 100, exports 50, net -50,
      quantities 10 and 5, net quantity -5. */
  lemma TwoRowScenario()
    ensures var f1 := Fact(2020, 1, 2020, Some(1), 1, Some(5), None, Some(3), Some(100.0), 10.0);
      var f2 := Fact(2020, 1, 2020, Some(1), 2, Some(5), None, Some(3), Some(50.0), 5.0);
      Aggregate([f1, f2], [Year, Month, HtsId]) == [AggRow([Some(2020), Some(1), Some(5)], 100.0, 50.0, 10.0, 5.0, -50.0, -5.0)]
  {
    var f1 := Fact(2020, 1, 2020, Some(1), 1, Some(5), None, Some(3), Some(100.0), 10.0);
    var f2 := Fact(2020, 1, 2020, Some(1), 2, Some(5), None, Some(3), Some(50.0), 5.0);
    var cols := [Year, Month, HtsId];
    var k: Tuple := [Some(2020), Some(1), Some(5)];
    assert TupleOf(f1, cols) == k && TupleOf(f2, cols) == k;
    assert [f1, f2][1..] == [f2];
    assert [f2][1..] == [];
    assert Side([f2], 2) == [f2];
    assert Side([f2], 1) == [];
    assert Side([f1, f2], 1) == [f1];
    assert Side([f1, f2], 2) == [f2];
    assert Tuples([f1], cols) == [k];
    assert Tuples([f2], cols) == [k];
    assert Dedup([k]) == [k];
    assert [f1][1..] == [];
    assert SumData([f1], cols, k) == 100.0;
    assert SumQty([f1], cols, k) == 10.0 + SumQty([], cols, k);
    assert SumData([f2], cols, k) == 50.0;
    assert SumQty([f2], cols, k) == 5.0 + SumQty([], cols, k);
    var gi, ge := GroupSum([f1], cols), GroupSum([f2], cols);
    assert gi == [Group(k, 100.0, 10.0)];
    assert ge == [Group(k, 50.0, 5.0)];
    assert MatchIn(k, ge) == Some(ge[0]);
    assert MatchIn(k, gi) == Some(gi[0]);
    assert RightOnly(gi, ge, 3) == [];
    var j := Joined(k, k, Some(100.0), Some(10.0), Some(50.0), Some(5.0));
    assert FullJoin(gi, ge, 3) == [j];
    assert Coalesce(k, k) == k;
    var r := AggRow(k, 100.0, 50.0, 10.0, 5.0, -50.0, -5.0);
    assert FinishAll([j]) == [r];
    assert SortByKey([r]) == [r];
  }

  /** An import row with no matching export group is kept, with zero
      exports, not dropped. */
  lemma ImportOnlyScenario()
    ensures var f1 := Fact(2020, 1, 2020, Some(1), 1, Some(5), None, Some(3), Some(100.0), 10.0);
      Aggregate([f1], [Year, Month, HtsId]) == [AggRow([Some(2020), Some(1), Some(5)], 100.0, 0.0, 10.0, 0.0, -100.0, -10.0)]
  {
    var f1 := Fact(2020, 1, 2020, Some(1), 1, Some(5), None, Some(3), Some(100.0), 10.0);
    var cols := [Year, Month, HtsId];
    var k: Tuple := [Some(2020), Some(1), Some(5)];
    assert TupleOf(f1, cols) == k;
    assert [f1][1..] == [];
    assert Side([f1], 1) == [f1];
    assert Side([f1], 2) == [];
    assert Tuples([f1], cols) == [k];
    assert Dedup([k]) == [k];
    assert SumData([f1], cols, k) == 100.0;
    assert SumQty([f1], cols, k) == 10.0 + SumQty([], cols, k);
    var gi, ge := GroupSum([f1], cols), GroupSum([], cols);
    assert gi == [Group(k, 100.0, 10.0)];
    assert ge == [];
    var j := Joined(k, Nulls(3), Some(100.0), Some(10.0), None, None);
    assert FullJoin(gi, ge, 3) == [j];
    CoalesceWithNulls(k, 3);
    var r := AggRow(k, 100.0, 0.0, 10.0, 0.0, -100.0, -10.0);
    assert FinishAll([j]) == [r];
    assert SortByKey([r]) == [r];
  }
}
