/** Column ranks as the dimension builder uses them to give dimension rows
    their ids: the "ordinal" method (1..n, ties broken by row order) and the
    default "average" method (ties share the mean of their positions), the
    latter truncated to an integer as the cast to Int64 does. */
module Ranking {
  import opened Common

  ghost predicate StrictTotalOrder<K(!new)>(lt: (K, K) -> bool) {
    && (forall x :: !lt(x, x))
    && (forall x, y, z :: lt(x, y) && lt(y, z) ==> lt(x, z))
    && (forall x, y :: x != y ==> lt(x, y) || lt(y, x))
  }

  predicate IntLess(a: int, b: int) {
    a < b
  }

  lemma IntLessIsStrictTotalOrder()
    ensures StrictTotalOrder(IntLess)
  {
  }

  lemma StrLessIsStrictTotalOrder()
    ensures StrictTotalOrder(StrLess)
  {
    forall x | true ensures !StrLess(x, x) {
      StrLessIrreflexive(x);
    }
    forall x, y, z | StrLess(x, y) && StrLess(y, z) ensures StrLess(x, z) {
      StrLessTransitive(x, y, z);
    }
    forall x, y | x != y ensures StrLess(x, y) || StrLess(y, x) {
      StrLessConnected(x, y);
    }
  }

  datatype RankMethod = Ordinal | Average

  /** Positions whose code is strictly smaller than the code at i. */
  function Smaller<K>(codes: seq<K>, lt: (K, K) -> bool, i: nat): set<nat>
    requires i < |codes|
  {
    set j: nat | j < |codes| && lt(codes[j], codes[i])
  }

  /** Positions before i holding the same code. */
  function EarlierTies<K(==)>(codes: seq<K>, i: nat): set<nat>
    requires i < |codes|
  {
    set j: nat | j < i && codes[j] == codes[i]
  }

  /** All positions holding the same code as i (i included). */
  function Ties<K(==)>(codes: seq<K>, i: nat): set<nat>
    requires i < |codes|
  {
    set j: nat | j < |codes| && codes[j] == codes[i]
  }

  function RankAt<K(==)>(codes: seq<K>, how: RankMethod, lt: (K, K) -> bool, i: nat): nat
    requires i < |codes|
  {
    match how
    case Ordinal => 1 + |Smaller(codes, lt, i)| + |EarlierTies(codes, i)|
    // mean of the positions |Smaller|+1 .. |Smaller|+|Ties|, truncated
    case Average => |Smaller(codes, lt, i)| + (|Ties(codes, i)| + 1) / 2
  }

  /** The rank column `rank(method=...)` of a code column. */
  function Rank<K(==)>(codes: seq<K>, how: RankMethod, lt: (K, K) -> bool): (ids: seq<nat>)
    ensures |ids| == |codes|
    ensures forall i | 0 <= i < |codes| :: ids[i] == RankAt(codes, how, lt, i)
  {
    seq(|codes|, i requires 0 <= i < |codes| => RankAt(codes, how, lt, i))
  }

  // ---------------------------------------------------------------------
  // Counting facts

  /** The positions 0..n-1. */
  function Below(n: nat): (r: set<nat>)
    ensures forall j: nat :: j in r <==> j < n
    ensures |r| == n
  {
    if n == 0 then {} else Below(n - 1) + {n - 1}
  }

  /** The ids 1..n. */
  function IdRange(n: nat): (r: set<nat>)
    ensures forall m: nat :: m in r <==> 1 <= m <= n
    ensures |r| == n
  {
    if n == 0 then {} else IdRange(n - 1) + {n}
  }

  lemma SubsetCard<T>(a: set<T>, b: set<T>)
    requires a <= b
    ensures |a| <= |b|
  {
    assert b == a + (b - a);
  }

  lemma SubsetSameCard<T>(a: set<T>, b: set<T>)
    requires a <= b && |a| == |b|
    ensures a == b
  {
    assert b == a + (b - a);
    assert |b - a| == 0;
  }

  // ---------------------------------------------------------------------
  // Laws of the ordinal rank

  lemma OrdinalBounds<K(!new)>(codes: seq<K>, lt: (K, K) -> bool, i: nat)
    requires StrictTotalOrder(lt)
    requires i < |codes|
    ensures 1 <= RankAt(codes, Ordinal, lt, i) <= |codes|
  {
    var s, e := Smaller(codes, lt, i), EarlierTies(codes, i);
    assert s !! e;
    assert s + e <= Below(|codes|) - {i};
    SubsetCard(s + e, Below(|codes|) - {i});
  }

  /** A smaller code gets a smaller id; equal codes are numbered in row order. */
  lemma OrdinalMonotone<K(!new)>(codes: seq<K>, lt: (K, K) -> bool, i: nat, j: nat)
    requires StrictTotalOrder(lt)
    requires i < |codes| && j < |codes|
    requires lt(codes[i], codes[j]) || (codes[i] == codes[j] && i < j)
    ensures RankAt(codes, Ordinal, lt, i) < RankAt(codes, Ordinal, lt, j)
  {
    var si, ei := Smaller(codes, lt, i), EarlierTies(codes, i);
    var sj, ej := Smaller(codes, lt, j), EarlierTies(codes, j);
    assert si !! ei;
    if lt(codes[i], codes[j]) {
      assert si + ei + {i} <= sj;
      SubsetCard(si + ei + {i}, sj);
    } else {
      assert si == sj;
      assert ei + {i} <= ej;
      SubsetCard(ei + {i}, ej);
    }
  }

  lemma OrdinalInjective<K(!new)>(codes: seq<K>, lt: (K, K) -> bool, i: nat, j: nat)
    requires StrictTotalOrder(lt)
    requires i < j < |codes|
    ensures RankAt(codes, Ordinal, lt, i) != RankAt(codes, Ordinal, lt, j)
  {
    if codes[i] == codes[j] || lt(codes[i], codes[j]) {
      OrdinalMonotone(codes, lt, i, j);
    } else {
      OrdinalMonotone(codes, lt, j, i);
    }
  }

  lemma {:induction false} DistinctSeqCard(s: seq<nat>)
    requires Distinct(s)
    ensures |set i | 0 <= i < |s| :: s[i]| == |s|
  {
    if s != [] {
      var t := s[..|s| - 1];
      DistinctSeqCard(t);
      assert (set i | 0 <= i < |s| :: s[i]) == (set i | 0 <= i < |t| :: t[i]) + {s[|s| - 1]};
    }
  }

  /** The set of ordinal ids is exactly 1..n. */
  lemma OrdinalImage<K(!new)>(codes: seq<K>, lt: (K, K) -> bool)
    requires StrictTotalOrder(lt)
    ensures var ids := Rank(codes, Ordinal, lt);
      Distinct(ids) && (set i | 0 <= i < |ids| :: ids[i]) == IdRange(|codes|)
  {
    var ids := Rank(codes, Ordinal, lt);
    forall i, j | 0 <= i < j < |ids| ensures ids[i] != ids[j] {
      OrdinalInjective(codes, lt, i, j);
    }
    var image := set i | 0 <= i < |ids| :: ids[i];
    forall x | x in image ensures x in IdRange(|codes|) {
      var i :| 0 <= i < |ids| && ids[i] == x;
      OrdinalBounds(codes, lt, i);
    }
    DistinctSeqCard(ids);
    SubsetSameCard(image, IdRange(|codes|));
  }

  /** Ordinal ids are exactly 1..n, one per row, ordered by code and, among
      equal codes, by row order. */
  lemma OrdinalIsPermutation<K(!new)>(codes: seq<K>, lt: (K, K) -> bool)
    requires StrictTotalOrder(lt)
    ensures var ids := Rank(codes, Ordinal, lt);
      && Distinct(ids)
      && (set i | 0 <= i < |ids| :: ids[i]) == IdRange(|codes|)
      && (forall i, j | 0 <= i < |codes| && 0 <= j < |codes| && lt(codes[i], codes[j]) :: ids[i] < ids[j])
      && (forall i, j | 0 <= i < j < |codes| && codes[i] == codes[j] :: ids[i] < ids[j])
  {
    var ids := Rank(codes, Ordinal, lt);
    OrdinalImage(codes, lt);
    forall i, j | 0 <= i < |codes| && 0 <= j < |codes| && lt(codes[i], codes[j]) ensures ids[i] < ids[j] {
      OrdinalMonotone(codes, lt, i, j);
    }
    forall i, j | 0 <= i < j < |codes| && codes[i] == codes[j] ensures ids[i] < ids[j] {
      OrdinalMonotone(codes, lt, i, j);
    }
  }

  // ---------------------------------------------------------------------
  // Laws of the average rank

  /** With distinct codes the average rank is the ordinal rank, so the ids
      are again exactly 1..n. */
  lemma AverageIsOrdinalWhenDistinct<K(!new)>(codes: seq<K>, lt: (K, K) -> bool)
    requires Distinct(codes)
    ensures Rank(codes, Average, lt) == Rank(codes, Ordinal, lt)
  {
    forall i | 0 <= i < |codes|
      ensures RankAt(codes, Average, lt, i) == RankAt(codes, Ordinal, lt, i)
    {
      assert Ties(codes, i) == {i};
      assert EarlierTies(codes, i) == {};
    }
  }

  /** Tied codes share one id under the average rank, whatever the other
      codes are: the id depends only on the code, not on the position. */
  lemma AverageRankTiesShare<K(!new)>(codes: seq<K>, lt: (K, K) -> bool, i: nat, j: nat)
    requires i < |codes| && j < |codes| && codes[i] == codes[j]
    ensures RankAt(codes, Average, lt, i) == RankAt(codes, Average, lt, j)
  {
    assert Smaller(codes, lt, i) == Smaller(codes, lt, j);
    assert Ties(codes, i) == Ties(codes, j);
  }

  /** Examples of tied codes under the average rank: three equal codes get
      the exact mean 2 of positions 1..3, and two equal codes get 1, the
      mean 1.5 of positions 1..2 truncated; so the ids are neither distinct
      nor dense. */
  lemma AverageRankTies()
    ensures Rank([7, 7, 7], Average, IntLess) == [2, 2, 2]
    ensures Rank([7, 7], Average, IntLess) == [1, 1]
  {
    var c := [7, 7, 7];
    forall i | 0 <= i < 3 ensures RankAt(c, Average, IntLess, i) == 2 {
      assert Smaller(c, IntLess, i) == {};
      assert Ties(c, i) == {0, 1, 2};
    }
    var d := [7, 7];
    forall i | 0 <= i < 2 ensures RankAt(d, Average, IntLess, i) == 1 {
      assert Smaller(d, IntLess, i) == {};
      assert Ties(d, i) == {0, 1};
    }
  }
}
