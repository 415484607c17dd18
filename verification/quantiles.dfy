/** Nearest-rank quantiles, the calibration constants derived by matching
    them, and the split-conformal gate (scores are real numbers). */
module Quantiles {
  import opened Prelude
  import opened Reals

  // ---------------------------------------------------------------------
  // Counting and sorting
  // ---------------------------------------------------------------------

  datatype Test = AtMost(c: real) | Below(c: real) | AtLeast(c: real) | Above(c: real) {
    predicate Holds(x: real) {
      match this
      case AtMost(c) => x <= c
      case Below(c) => x < c
      case AtLeast(c) => x >= c
      case Above(c) => x > c
    }
  }

  function Count(v: seq<real>, t: Test): (n: nat)
    ensures n <= |v|
  {
    if v == [] then 0 else Count(v[..|v| - 1], t) + (if t.Holds(v[|v| - 1]) then 1 else 0)
  }

  predicate Sorted(v: seq<real>) {
    forall i, j | 0 <= i <= j < |v| :: v[i] <= v[j]
  }

  predicate Rises(a: real, b: real) {
    a <= b
  }

  /** The sorted copy every quantile reads. */
  function Sort(v: seq<real>): (w: seq<real>)
    ensures |w| == |v|
  {
    SortBy(v, Rises)
  }

  lemma SortSorts(v: seq<real>)
    ensures Sorted(Sort(v))
  {
    SortBySorts(v, Rises);
    hide SortBy;
    assert forall i, j | 0 <= i <= j < |v| :: Rises(Sort(v)[i], Sort(v)[j]);
  }

  lemma {:induction false} CountInsert(x: real, v: seq<real>, t: Test)
    ensures Count(InsertBy(v, x, Rises), t) == Count(v, t) + (if t.Holds(x) then 1 else 0)
  {
    if v == [] || v[|v| - 1] <= x {
      assert (v + [x])[..|v|] == v;
    } else {
      var init, last := v[..|v| - 1], v[|v| - 1];
      CountInsert(x, init, t);
      var w := InsertBy(init, x, Rises);
      assert (w + [last])[..|w|] == w;
    }
  }

  lemma {:induction false} CountSort(v: seq<real>, t: Test)
    ensures Count(Sort(v), t) == Count(v, t)
  {
    if v != [] {
      CountSort(v[..|v| - 1], t);
      CountInsert(v[|v| - 1], Sort(v[..|v| - 1]), t);
    }
  }

  lemma {:induction false} CountEvery(v: seq<real>, t: Test)
    requires forall i | 0 <= i < |v| :: t.Holds(v[i])
    ensures Count(v, t) == |v|
  {
    if v != [] { CountEvery(v[..|v| - 1], t); }
  }

  /** The k-th smallest passes an upper bound exactly when k values do. */
  lemma {:induction false} KthSmallest(v: seq<real>, t: Test, k: nat)
    requires Sorted(v) && 1 <= k <= |v| && (t.AtMost? || t.Below?)
    ensures t.Holds(v[k - 1]) <==> k <= Count(v, t)
  {
    var init, last := v[..|v| - 1], v[|v| - 1];
    if t.Holds(last) {
      CountEvery(v, t);
    } else if k < |v| {
      KthSmallest(init, t, k);
    }
  }

  lemma {:induction false} CountComplement(v: seq<real>, c: real)
    ensures Count(v, AtMost(c)) + Count(v, Above(c)) == |v|
    ensures Count(v, Below(c)) + Count(v, AtLeast(c)) == |v|
  {
    if v != [] { CountComplement(v[..|v| - 1], c); }
  }

  // ---------------------------------------------------------------------
  // Quantiles
  // ---------------------------------------------------------------------

  function Ceil(x: real): int {
    -(-x).Floor
  }

  /** derive.py's index: the nearest rank, clamped to the list. */
  function QuantileIndex(n: nat, p: real): (i: int)
    requires n > 0
    ensures 0 <= i < n
  {
    Min(n - 1, Max(0, Ceil(p * n as real) - 1))
  }

  function Quantile(v: seq<real>, p: real): real
    requires v != []
  {
    Sort(v)[QuantileIndex(|v|, p)]
  }

  /** eval_measure's form: the rank clamped to 1..n, then one less. */
  function RankQuantile(sorted: seq<real>, q: real): real
    requires sorted != []
  {
    var rank := Max(1, Min(|sorted|, Max(0, Ceil(q * |sorted| as real))));
    sorted[rank - 1]
  }

  lemma QuantilesAgree(v: seq<real>, p: real)
    requires v != []
    ensures RankQuantile(Sort(v), p) == Quantile(v, p)
  {
    var sorted := Sort(v);
    ClampThenStep(|v|, Ceil(p * |v| as real));
    assert RankQuantile(sorted, p) == sorted[QuantileIndex(|v|, p)];
  }

  lemma ClampThenStep(n: nat, rank: int)
    requires n > 0
    ensures Max(1, Min(n, Max(0, rank))) - 1 == Min(n - 1, Max(0, rank - 1))
  {}

  function Share(v: seq<real>, t: Test): real
    requires v != []
  {
    Count(v, t) as real / |v| as real
  }

  lemma CeilAtMost(x: real, k: int)
    ensures Ceil(x) <= k <==> x <= k as real
  {}

  lemma ShareAtLeast(v: seq<real>, t: Test, p: real)
    requires v != []
    ensures p <= Share(v, t) <==> p * |v| as real <= Count(v, t) as real
  {
    hide Count;
    QuotientAtLeast(p, Count(v, t) as real, |v| as real);
  }

  /** The k-th smallest value passes an upper bound when k values do. */
  lemma KthOfSort(v: seq<real>, t: Test, k: nat)
    requires 1 <= k <= |v| && (t.AtMost? || t.Below?)
    ensures t.Holds(Sort(v)[k - 1]) <==> k <= Count(v, t)
  {
    hide Count;
    SortSorts(v);
    KthSmallest(Sort(v), t, k);
    CountSort(v, t);
  }

  /** For 0 < p <= 1 the index is the rounded-up rank, unclamped. */
  lemma RankOf(n: nat, p: real, c: int) returns (k: nat)
    requires n > 0 && 0.0 < p <= 1.0
    ensures 1 <= k <= n && QuantileIndex(n, p) == k - 1
    ensures k <= c <==> p * n as real <= c as real
  {
    PartOf(p, n as real);
    k := RoundedUp(n, p * n as real, c);
  }

  lemma RoundedUp(n: nat, x: real, c: int) returns (k: nat)
    requires 0.0 < x <= n as real
    ensures k == Ceil(x) && 1 <= k <= n && Min(n - 1, Max(0, Ceil(x) - 1)) == k - 1
    ensures k <= c <==> x <= c as real
  {
    CeilAtMost(x, 0);
    CeilAtMost(x, n);
    CeilAtMost(x, c);
    k := Ceil(x);
  }

  /** Quantile and share are a Galois connection. */
  lemma QuantileGalois(v: seq<real>, p: real, c: real)
    requires v != [] && 0.0 < p <= 1.0
    ensures Quantile(v, p) <= c <==> p <= Share(v, AtMost(c))
  {
    hide Count, Sort;
    var k := RankOf(|v|, p, Count(v, AtMost(c)));
    KthOfSort(v, AtMost(c), k);
    ShareAtLeast(v, AtMost(c), p);
  }

  lemma SharesAddUp(v: seq<real>, c: real)
    requires v != []
    ensures Share(v, AtMost(c)) + Share(v, Above(c)) == 1.0
    ensures Share(v, Below(c)) + Share(v, AtLeast(c)) == 1.0
  {
    hide Count;
    CountComplement(v, c);
    QuotientsAdd(Count(v, AtMost(c)) as real, Count(v, Above(c)) as real, |v| as real);
    QuotientsAdd(Count(v, Below(c)) as real, Count(v, AtLeast(c)) as real, |v| as real);
  }

  lemma ShareInUnit(v: seq<real>, t: Test)
    requires v != []
    ensures 0.0 <= Share(v, t) <= 1.0
  {
    hide Count;
    UnitQuotient(Count(v, t) as real, |v| as real);
  }

  /** `recall_constant` before rounding. */
  function RecallConstant(reference: seq<real>, target: seq<real>, c: real): real
    requires reference != [] && target != []
  {
    Quantile(target, Share(reference, AtMost(c)))
  }

  /** The derived constant lets through no larger share of the target's
      irrelevant scores than the reference constant lets through of its own,
      and it is the least constant that does, as soon as the reference keeps
      anything out. */
  lemma RecallConstantMatches(reference: seq<real>, target: seq<real>, c: real)
    requires reference != [] && target != []
    ensures Share(target, Above(RecallConstant(reference, target, c))) <= Share(reference, Above(c))
    ensures Share(reference, AtMost(c)) > 0.0 ==>
              forall d: real :: Share(target, Above(d)) <= Share(reference, Above(c))
                                <==> RecallConstant(reference, target, c) <= d
  {
    hide Share, Quantile;
    var q, derived := Share(reference, AtMost(c)), RecallConstant(reference, target, c);
    SharesAddUp(reference, c);
    SharesAddUp(target, derived);
    ShareInUnit(reference, AtMost(c));
    ShareInUnit(target, Above(derived));
    if q > 0.0 {
      QuantileGalois(target, q, derived);
      forall d: real
        ensures Share(target, Above(d)) <= Share(reference, Above(c)) <==> derived <= d
      {
        QuantileGalois(target, q, d);
        SharesAddUp(target, d);
      }
    }
  }

  /** `merge_constant` before rounding. */
  function MergeConstant(reference: seq<real>, target: seq<real>, c: real): real
    requires reference != [] && target != []
  {
    Quantile(target, 1.0 - Share(reference, AtLeast(c)))
  }

  /** The derived threshold brackets the reference's merged share: strictly
      above it no more merge, at or above it more do, unless the reference
      merges everything. */
  lemma MergeConstantBrackets(reference: seq<real>, target: seq<real>, c: real)
    requires reference != [] && target != []
    ensures var m, d := Share(reference, AtLeast(c)), MergeConstant(reference, target, c);
            && Share(target, Above(d)) <= m
            && (m < Share(target, AtLeast(d)) <==> m < 1.0)
  {
    hide Share, Quantile;
    var m, d := Share(reference, AtLeast(c)), MergeConstant(reference, target, c);
    SharesAddUp(target, d);
    ShareInUnit(reference, AtLeast(c));
    ShareInUnit(target, Above(d));
    ShareInUnit(target, AtLeast(d));
    if m < 1.0 {
      var p := 1.0 - m;
      QuantileGalois(target, p, d);
      FewerBelowQuantile(target, p);
    }
  }

  /** Less than a share p lies strictly below the p-quantile. */
  lemma FewerBelowQuantile(v: seq<real>, p: real)
    requires v != [] && 0.0 < p <= 1.0
    ensures Share(v, Below(Quantile(v, p))) < p
  {
    hide Count, Sort;
    var d := Quantile(v, p);
    var k := RankOf(|v|, p, Count(v, Below(d)));
    KthOfSort(v, Below(d), k);
    ShareAtLeast(v, Below(d), p);
  }

  // ---------------------------------------------------------------------
  // The split-conformal gate
  // ---------------------------------------------------------------------

  /** The gate's rank among the n tuning scores. */
  function GateRank(alpha: real, n: nat): (k: int)
    requires n > 0
    ensures 1 <= k <= n
  {
    Max(1, Min(n, Max(0, (alpha * (n + 1) as real).Floor)))
  }

  /** The threshold tuned on `dev`; a score is kept when it reaches it. */
  function Tau(dev: seq<real>, alpha: real): real
    requires dev != []
  {
    Sort(dev)[GateRank(alpha, |dev|) - 1]
  }

  lemma WithoutEarlier<T>(s: seq<T>, i: nat)
    requires i < |s| - 1
    ensures Without(s, i)[..|s| - 2] == Without(s[..|s| - 1], i) && Without(s, i)[|s| - 2] == s[|s| - 1]
  {}

  lemma {:induction false} CountWithout(s: seq<real>, i: nat, t: Test)
    requires i < |s|
    ensures Count(s, t) == Count(Without(s, i), t) + (if t.Holds(s[i]) then 1 else 0)
  {
    var init := s[..|s| - 1];
    if i == |s| - 1 {
      assert Without(s, i) == init;
    } else {
      CountWithout(init, i, t);
      WithoutEarlier(s, i);
      hide Without, Test.Holds;
      assert Count(s, t) == Count(init, t) + (if t.Holds(s[|s| - 1]) then 1 else 0);
    }
  }

  function Positions(s: seq<real>, t: Test): set<int> {
    set i | 0 <= i < |s| && t.Holds(s[i])
  }

  lemma {:induction false} CountIsPositions(s: seq<real>, t: Test)
    ensures Count(s, t) == |Positions(s, t)|
  {
    if s != [] {
      var n := |s| - 1;
      CountIsPositions(s[..n], t);
      assert Positions(s, t) == Positions(s[..n], t) + (if t.Holds(s[n]) then {n} else {});
    }
  }

  /** The held-out choices whose score the gate tuned on the others refuses. */
  function Refused(scores: seq<real>, alpha: real): set<int>
    requires |scores| > 1
  {
    set i | 0 <= i < |scores| && scores[i] < Tau(Without(scores, i), alpha)
  }

  lemma {:induction false} RefusedIsLow(scores: seq<real>, alpha: real, i: nat)
    requires |scores| > 1 && i < |scores| && scores[i] < Tau(Without(scores, i), alpha)
    ensures Count(scores, AtMost(scores[i])) <= GateRank(alpha, |scores| - 1)
  {
    var dev := Without(scores, i);
    hide Without, Count, Sort, GateRank, Test.Holds;
    LowRank(dev, GateRank(alpha, |dev|), scores[i]);
    CountWithout(scores, i, AtMost(scores[i]));
  }

  lemma LowRank(dev: seq<real>, k: nat, x: real)
    requires 1 <= k <= |dev| && x < Sort(dev)[k - 1]
    ensures Count(dev, AtMost(x)) < k
  {
    KthOfSort(dev, AtMost(x), k);
  }

  lemma {:induction false} Highest(scores: seq<real>, s: set<int>) returns (top: int)
    requires s != {} && forall i | i in s :: 0 <= i < |scores|
    ensures top in s && forall i | i in s :: scores[i] <= scores[top]
    decreases s
  {
    top := Choose(s);
    var rest := s - {top};
    if rest != {} {
      var other := Highest(scores, rest);
      if scores[top] < scores[other] { top := other; }
    } else {
      assert s == {top};
    }
  }

  lemma RefusedAtMostRank(scores: seq<real>, alpha: real)
    requires |scores| > 1
    ensures |Refused(scores, alpha)| <= GateRank(alpha, |scores| - 1)
  {
    var refused := Refused(scores, alpha);
    if refused != {} {
      var top := Highest(scores, refused);
      RefusedIsLow(scores, alpha, top);
      var t := AtMost(scores[top]);
      CountIsPositions(scores, t);
      SubsetSize(refused, Positions(scores, t));
    }
  }

  /** A choice is refused exactly when no more scores than the gate's rank are
      at most its own. */
  lemma RefusedExactWhen(scores: seq<real>, alpha: real, i: nat)
    requires |scores| > 1 && i < |scores|
    ensures i in Refused(scores, alpha) <==> Count(scores, AtMost(scores[i])) <= GateRank(alpha, |scores| - 1)
  {
    RefusedIs(scores, alpha, i);
    TauAtMost(Without(scores, i), alpha, scores[i]);
    CountHeldOut(scores, i);
    assert |Without(scores, i)| == |scores| - 1;
    hide *;
  }

  lemma TauAtMost(dev: seq<real>, alpha: real, x: real)
    requires dev != []
    ensures Tau(dev, alpha) <= x <==> GateRank(alpha, |dev|) <= Count(dev, AtMost(x))
  {
    hide Count, Sort, GateRank;
    KthOfSort(dev, AtMost(x), GateRank(alpha, |dev|));
  }

  lemma CountHeldOut(scores: seq<real>, i: nat)
    requires i < |scores|
    ensures Count(scores, AtMost(scores[i])) == Count(Without(scores, i), AtMost(scores[i])) + 1
  {
    hide Count, Without;
    CountWithout(scores, i, AtMost(scores[i]));
  }

  lemma RefusedIs(scores: seq<real>, alpha: real, i: nat)
    requires |scores| > 1 && i < |scores|
    ensures i in Refused(scores, alpha) <==> scores[i] < Tau(Without(scores, i), alpha)
  {
    hide Without, Tau;
  }

  lemma {:induction false} LevelOnce(v: seq<real>, c: real)
    requires Distinct(v)
    ensures Count(v, AtMost(c)) == Count(v, Below(c)) + (if c in v then 1 else 0)
  {
    if v != [] {
      var init, last := v[..|v| - 1], v[|v| - 1];
      LevelOnce(init, c);
      assert v == init + [last];
    }
  }

  /** Of distinct scores, as many as the rank are at most the one of that rank. */
  lemma CountAtRank(v: seq<real>, k: nat)
    requires Distinct(v) && 1 <= k <= |v|
    ensures var c := Sort(v)[k - 1]; Count(v, AtMost(c)) == k && Count(v, Below(c)) == k - 1
  {
    var c := Sort(v)[k - 1];
    LevelOnce(v, c);
    hide Count, Sort, Distinct;
    KthOfSort(v, AtMost(c), k);
    KthOfSort(v, Below(c), k);
  }

  lemma {:induction false} CountGrows(v: seq<real>, c: real, d: real)
    requires c <= d
    ensures Count(v, AtMost(c)) <= Count(v, AtMost(d))
  {
    if v != [] { CountGrows(v[..|v| - 1], c, d); }
  }

  /** The gate refuses no fewer than it may: of n+1 distinct scores, exactly
      ⌊α(n+1)⌋ choices are refused, kept between 1 and n. */
  lemma RefusedExactly(scores: seq<real>, alpha: real)
    requires |scores| > 1 && Distinct(scores)
    ensures |Refused(scores, alpha)| == Max(1, Min(|scores| - 1, (alpha * |scores| as real).Floor))
    ensures alpha < 1.0 <= alpha * |scores| as real ==>
              |Refused(scores, alpha)| as real > alpha * |scores| as real - 1.0
  {
    RefusedAtMostRank(scores, alpha);
    RefusedAtLeastRank(scores, alpha);
    GateRankIs(alpha, |scores| - 1);
    hide *;
    FloorBelow(alpha, |scores|);
    FloorAbove(alpha * |scores| as real);
    assert (|scores| - 1 + 1) as real == |scores| as real;
  }

  lemma GateRankIs(alpha: real, n: nat)
    requires n > 0
    ensures GateRank(alpha, n) == Max(1, Min(n, (alpha * (n + 1) as real).Floor))
  {}

  lemma FloorAbove(x: real)
    ensures x.Floor as real > x - 1.0 && (x >= 1.0 ==> x.Floor >= 1)
  {}

  lemma RefusedAtLeastRank(scores: seq<real>, alpha: real)
    requires |scores| > 1 && Distinct(scores)
    ensures |Refused(scores, alpha)| >= GateRank(alpha, |scores| - 1)
  {
    hide Refused, Sort, Count, GateRank;
    var k := GateRank(alpha, |scores| - 1);
    CountAtRank(scores, k);
    var c := Sort(scores)[k - 1];
    CountIsPositions(scores, AtMost(c));
    LowAreRefused(scores, alpha, c);
    SubsetSize(Positions(scores, AtMost(c)), Refused(scores, alpha));
  }

  lemma LowAreRefused(scores: seq<real>, alpha: real, c: real)
    requires |scores| > 1 && Count(scores, AtMost(c)) <= GateRank(alpha, |scores| - 1)
    ensures Positions(scores, AtMost(c)) <= Refused(scores, alpha)
  {
    hide Count, Refused, GateRank;
    forall i | i in Positions(scores, AtMost(c)) ensures i in Refused(scores, alpha) {
      CountGrows(scores, scores[i], c);
      RefusedExactWhen(scores, alpha, i);
    }
  }

  lemma FloorBelow(alpha: real, n: nat)
    requires n > 0
    ensures alpha < 1.0 ==> (alpha * n as real).Floor <= n - 1
  {
    if alpha < 1.0 {
      var slack := 1.0 - alpha;
      ProductPositive(slack, n as real);
      Distributes(alpha, slack, n as real);
    }
  }

  /** The split-conformal guarantee, as counting: of the n+1 ways to hold one
      score out, at most α(n+1) see it refused by the gate tuned on the rest,
      ties included. */
  lemma ConformalCoverage(scores: seq<real>, alpha: real)
    requires |scores| > 1 && alpha * |scores| as real >= 1.0
    ensures |Refused(scores, alpha)| as real <= alpha * |scores| as real
  {
    RefusedAtMostRank(scores, alpha);
  }

  /** The condition α(n+1) ≥ 1 is exact: for every number of tuning scores
      where it fails, some scores break the bound. */
  lemma ConformalNeedsEnoughScores(n: nat, alpha: real) returns (scores: seq<real>)
    requires n > 0 && alpha * (n + 1) as real < 1.0
    ensures |scores| == n + 1
    ensures |Refused(scores, alpha)| as real > alpha * (n + 1) as real
  {
    scores := seq(n + 1, i => i as real);
    var dev := Without(scores, 0);
    assert forall i | 0 <= i < n :: dev[i] == (i + 1) as real;
    assert (alpha * (n + 1) as real).Floor <= 0;
    assert GateRank(alpha, n) == 1;
    KthOfSort(dev, AtMost(0.0), 1);
    NoneAtMost(dev, 0.0);
    assert 0 in Refused(scores, alpha);
    SubsetSize({0}, Refused(scores, alpha));
  }

  lemma {:induction false} NoneAtMost(v: seq<real>, c: real)
    requires forall i | 0 <= i < |v| :: v[i] > c
    ensures Count(v, AtMost(c)) == 0
  {
    if v != [] { NoneAtMost(v[..|v| - 1], c); }
  }

  /** The tuning scores themselves keep a share of at least 1 - α. */
  lemma TuningScoresKept(dev: seq<real>, alpha: real)
    requires dev != [] && 0.0 <= alpha <= 1.0
    ensures Share(dev, AtLeast(Tau(dev, alpha))) >= 1.0 - alpha
  {
    hide Count, Sort;
    var n := |dev|;
    var k, tau := GateRank(alpha, n), Tau(dev, alpha);
    KthOfSort(dev, Below(tau), k);
    CountComplement(dev, tau);
    RankBound(alpha, n);
    ShareAtLeast(dev, AtLeast(tau), 1.0 - alpha);
    assert (1.0 - alpha) * n as real == n as real - alpha * n as real;
  }

  lemma RankBound(alpha: real, n: nat)
    requires n > 0 && 0.0 <= alpha <= 1.0
    ensures (GateRank(alpha, n) - 1) as real <= alpha * n as real
  {
    assert alpha * (n + 1) as real == alpha * n as real + alpha;
    MulAtMost(0.0, alpha, n as real);
  }

  /** Of n distinct tuning scores, exactly ⌊α(n+1)⌋ - 1 lie below the threshold,
      that number kept between 0 and n - 1. */
  lemma TuningScoresKeptExactly(dev: seq<real>, alpha: real)
    requires dev != [] && Distinct(dev)
    ensures Count(dev, AtLeast(Tau(dev, alpha)))
         == |dev| + 1 - Max(1, Min(|dev|, (alpha * (|dev| + 1) as real).Floor))
  {
    CountBelowTau(dev, alpha);
    CountComplement(dev, Tau(dev, alpha));
    GateRankIs(alpha, |dev|);
    hide *;
  }

  lemma CountBelowTau(dev: seq<real>, alpha: real)
    requires dev != [] && Distinct(dev)
    ensures Count(dev, Below(Tau(dev, alpha))) == GateRank(alpha, |dev|) - 1
  {
    hide Count, Sort, GateRank, Distinct;
    CountAtRank(dev, GateRank(alpha, |dev|));
  }
}
