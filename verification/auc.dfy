/** The top-1 separation statistic of eval_fusion. */
module Auc {
  import opened Prelude
  import opened Reals

  function PairScore(a: real, n: real): real {
    if a > n then 1.0 else if a == n then 0.5 else 0.0
  }

  /** One answerable score against every no-answer score. */
  function Row(a: real, none: seq<real>): real {
    if none == [] then 0.0 else Row(a, none[..|none| - 1]) + PairScore(a, none[|none| - 1])
  }

  function Wins(ans: seq<real>, none: seq<real>): real {
    if ans == [] then 0.0 else Wins(ans[..|ans| - 1], none) + Row(ans[|ans| - 1], none)
  }

  function Pairs(ans: seq<real>, none: seq<real>): nat {
    |ans| * |none|
  }

  function Area(ans: seq<real>, none: seq<real>): real {
    Wins(ans, none) / Max(Pairs(ans, none), 1) as real
  }

  /** The double loop over the two lists. */
  method TopOneArea(ans: seq<real>, none: seq<real>) returns (auc: real)
    ensures auc == Area(ans, none)
  {
    var wins := 0.0;
    for i := 0 to |ans|
      invariant wins == Wins(ans[..i], none)
    {
      for j := 0 to |none|
        invariant wins == Wins(ans[..i], none) + Row(ans[i], none[..j])
      {
        assert none[..j + 1][..j] == none[..j];
        wins := wins + (if ans[i] > none[j] then 1.0 else if ans[i] == none[j] then 0.5 else 0.0);
      }
      assert none[..|none|] == none;
      assert ans[..i + 1][..i] == ans[..i];
    }
    assert ans[..|ans|] == ans;
    auc := wins / Max(|ans| * |none|, 1) as real;
  }

  lemma {:induction false} RowBounds(a: real, none: seq<real>)
    ensures 0.0 <= Row(a, none) <= |none| as real
  {
    if none != [] { RowBounds(a, none[..|none| - 1]); }
  }

  lemma {:induction false} WinsBounds(ans: seq<real>, none: seq<real>)
    ensures 0.0 <= Wins(ans, none) <= Pairs(ans, none) as real
  {
    if ans != [] {
      WinsBounds(ans[..|ans| - 1], none);
      RowBounds(ans[|ans| - 1], none);
      assert Pairs(ans, none) == Pairs(ans[..|ans| - 1], none) + |none|;
    }
  }

  lemma {:induction false} WinsOneMore(ans: seq<real>, none: seq<real>, n: real)
    ensures Wins(ans, none + [n]) == Wins(ans, none) + |ans| as real - Row(n, ans)
  {
    if ans != [] {
      WinsOneMore(ans[..|ans| - 1], none, n);
      assert (none + [n])[..|none|] == none;
    }
  }

  lemma {:induction false} NoWins(ans: seq<real>)
    ensures Wins(ans, []) == 0.0
  {
    if ans != [] { NoWins(ans[..|ans| - 1]); }
  }

  /** Each pair is shared out exactly once between the two orders. */
  lemma {:induction false} WinsComplement(ans: seq<real>, none: seq<real>)
    ensures Wins(ans, none) + Wins(none, ans) == Pairs(ans, none) as real
  {
    if none == [] {
      NoWins(ans);
    } else {
      var init, last := none[..|none| - 1], none[|none| - 1];
      WinsComplement(ans, init);
      WinsOneMore(ans, init, last);
      assert none == init + [last];
      WinsLast(none, ans);
      PairsMore(ans, init, last);
      hide Wins, Row, Pairs;
    }
  }

  lemma WinsLast(ans: seq<real>, none: seq<real>)
    requires ans != []
    ensures Wins(ans, none) == Wins(ans[..|ans| - 1], none) + Row(ans[|ans| - 1], none)
  {}

  lemma PairsMore(ans: seq<real>, none: seq<real>, n: real)
    ensures Pairs(ans, none + [n]) == Pairs(ans, none) + |ans|
  {}

  /** A proper statistic on nonempty lists: within [0, 1], and the two orders'
      areas add up to one. On an empty list it reads 0. */
  lemma AreaIsProper(ans: seq<real>, none: seq<real>)
    ensures 0.0 <= Area(ans, none) <= 1.0
    ensures ans != [] && none != [] ==> Area(ans, none) + Area(none, ans) == 1.0
    ensures ans == [] || none == [] ==> Area(ans, none) == 0.0
  {
    WinsBounds(ans, none);
    WinsComplement(ans, none);
    var p := Max(Pairs(ans, none), 1) as real;
    UnitQuotient(Wins(ans, none), p);
    if ans != [] && none != [] {
      assert Pairs(ans, none) == Pairs(none, ans) >= 1;
      QuotientsAdd(Wins(ans, none), Wins(none, ans), p);
    } else {
      assert Pairs(ans, none) == 0;
    }
  }

  lemma {:induction false} WinsWithout(ans: seq<real>, i: nat, none: seq<real>)
    requires i < |ans|
    ensures Wins(ans, none) == Wins(Without(ans, i), none) + Row(ans[i], none)
  {
    var init := ans[..|ans| - 1];
    if i == |ans| - 1 {
      assert Without(ans, i) == init;
    } else {
      WinsWithout(init, i, none);
      var w := Without(ans, i);
      assert w[..|w| - 1] == Without(init, i);
    }
  }

  lemma {:induction false} WinsReordered(ans: seq<real>, other: seq<real>, none: seq<real>)
    requires multiset(ans) == multiset(other)
    ensures Wins(ans, none) == Wins(other, none)
  {
    if ans == [] {
      assert |multiset(other)| == 0;
    } else {
      var init, last := ans[..|ans| - 1], ans[|ans| - 1];
      assert ans == init + [last];
      assert last in multiset(other);
      var i :| 0 <= i < |other| && other[i] == last;
      WithoutOne(other, i);
      assert multiset(Without(other, i)) == multiset(other) - multiset{last};
      assert multiset(init) == multiset(ans) - multiset{last};
      WinsReordered(init, Without(other, i), none);
      WinsWithout(other, i, none);
    }
  }

  /** The order in which scores were collected never matters. */
  lemma AreaIgnoresOrder(ans: seq<real>, ans': seq<real>, none: seq<real>, none': seq<real>)
    requires multiset(ans) == multiset(ans') && multiset(none) == multiset(none')
    ensures Area(ans, none) == Area(ans', none')
  {
    WinsReordered(ans, ans', none);
    WinsComplement(ans', none);
    WinsReordered(none, none', ans');
    WinsComplement(ans', none');
    assert |ans| == |multiset(ans)| == |ans'|;
    assert |none| == |multiset(none)| == |none'|;
  }

  ghost predicate StrictlyIncreasing(f: real -> real) {
    forall x: real, y: real :: x < y ==> f(x) < f(y)
  }

  function Mapped(f: real -> real, v: seq<real>): seq<real> {
    seq(|v|, i requires 0 <= i < |v| => f(v[i]))
  }

  lemma {:induction false} RowRescaled(f: real -> real, a: real, none: seq<real>)
    requires StrictlyIncreasing(f)
    ensures Row(f(a), Mapped(f, none)) == Row(a, none)
  {
    if none != [] {
      RowRescaled(f, a, none[..|none| - 1]);
      assert Mapped(f, none)[..|none| - 1] == Mapped(f, none[..|none| - 1]);
      assert PairScore(f(a), f(none[|none| - 1])) == PairScore(a, none[|none| - 1]);
    }
  }

  lemma {:induction false} WinsRescaled(f: real -> real, ans: seq<real>, none: seq<real>)
    requires StrictlyIncreasing(f)
    ensures Wins(Mapped(f, ans), Mapped(f, none)) == Wins(ans, none)
  {
    if ans != [] {
      WinsRescaled(f, ans[..|ans| - 1], none);
      assert Mapped(f, ans)[..|ans| - 1] == Mapped(f, ans[..|ans| - 1]);
      RowRescaled(f, ans[|ans| - 1], none);
    }
  }

  /** Only the order of the scores counts, not their scale. */
  lemma AreaIgnoresScale(f: real -> real, ans: seq<real>, none: seq<real>)
    requires StrictlyIncreasing(f)
    ensures Area(Mapped(f, ans), Mapped(f, none)) == Area(ans, none)
  {
    WinsRescaled(f, ans, none);
  }

  // ---------------------------------------------------------------------
  // What the area counts
  // ---------------------------------------------------------------------

  /** The pairs in which the answerable score is the higher one. */
  function AbovePairs(ans: seq<real>, none: seq<real>): set<(int, int)> {
    set i, j | 0 <= i < |ans| && 0 <= j < |none| && ans[i] > none[j] :: (i, j)
  }

  function TiedPairs(ans: seq<real>, none: seq<real>): set<(int, int)> {
    set i, j | 0 <= i < |ans| && 0 <= j < |none| && ans[i] == none[j] :: (i, j)
  }

  function Below(a: real, none: seq<real>): set<int> {
    set j | 0 <= j < |none| && a > none[j]
  }

  function Level(a: real, none: seq<real>): set<int> {
    set j | 0 <= j < |none| && a == none[j]
  }

  lemma {:induction false} RowCounts(a: real, none: seq<real>)
    ensures Row(a, none) == |Below(a, none)| as real + |Level(a, none)| as real / 2.0
  {
    if none != [] {
      var n := |none| - 1;
      var init := none[..n];
      RowCounts(a, init);
      OneMore(Below(a, init), Below(a, none), n);
      OneMore(Level(a, init), Level(a, none), n);
    }
  }

  function Paired(i: int, js: set<int>): set<(int, int)> {
    set j | j in js :: (i, j)
  }

  lemma {:induction false} PairedSize(i: int, js: set<int>)
    ensures |Paired(i, js)| == |js|
    decreases js
  {
    if js != {} {
      var j := Choose(js);
      PairedSize(i, js - {j});
      assert Paired(i, js) == Paired(i, js - {j}) + {(i, j)};
    }
  }

  lemma {:induction false} WinsCount(ans: seq<real>, none: seq<real>)
    ensures Wins(ans, none) == |AbovePairs(ans, none)| as real + |TiedPairs(ans, none)| as real / 2.0
  {
    if ans != [] {
      var n := |ans| - 1;
      var init, last := ans[..n], ans[n];
      WinsCount(init, none);
      RowCounts(last, none);
      MoreAbove(init, last, none);
      MoreTied(init, last, none);
      assert ans == init + [last];
      hide AbovePairs, TiedPairs, Row, Below, Level;
    }
  }

  lemma MoreAbove(ans: seq<real>, a: real, none: seq<real>)
    ensures |AbovePairs(ans + [a], none)| == |AbovePairs(ans, none)| + |Below(a, none)|
  {
    AbovePairsMore(ans, a, none);
    PairedSize(|ans|, Below(a, none));
    hide *;
    TwoParts(AbovePairs(ans, none), Paired(|ans|, Below(a, none)), AbovePairs(ans + [a], none));
  }

  lemma AbovePairsMore(ans: seq<real>, a: real, none: seq<real>)
    ensures var old_, new_, all := AbovePairs(ans, none), Paired(|ans|, Below(a, none)), AbovePairs(ans + [a], none);
      old_ !! new_ && old_ <= all && new_ <= all <= old_ + new_
  {
    assert forall i | 0 <= i < |ans| :: (ans + [a])[i] == ans[i];
  }

  lemma MoreTied(ans: seq<real>, a: real, none: seq<real>)
    ensures |TiedPairs(ans + [a], none)| == |TiedPairs(ans, none)| + |Level(a, none)|
  {
    TiedPairsMore(ans, a, none);
    PairedSize(|ans|, Level(a, none));
    hide *;
    TwoParts(TiedPairs(ans, none), Paired(|ans|, Level(a, none)), TiedPairs(ans + [a], none));
  }

  lemma TiedPairsMore(ans: seq<real>, a: real, none: seq<real>)
    ensures var old_, new_, all := TiedPairs(ans, none), Paired(|ans|, Level(a, none)), TiedPairs(ans + [a], none);
      old_ !! new_ && old_ <= all && new_ <= all <= old_ + new_
  {
    assert forall i | 0 <= i < |ans| :: (ans + [a])[i] == ans[i];
  }

  /** The area is the share of pairs in which the answerable score is higher,
      ties counted half. */
  lemma AreaCountsPairs(ans: seq<real>, none: seq<real>)
    requires ans != [] && none != []
    ensures Area(ans, none) * (|ans| * |none|) as real
         == |AbovePairs(ans, none)| as real + |TiedPairs(ans, none)| as real / 2.0
  {
    WinsCount(ans, none);
    assert Pairs(ans, none) >= 1;
  }

  lemma {:induction false} RowIsFull(a: real, none: seq<real>)
    ensures Row(a, none) == |none| as real <==> forall j | 0 <= j < |none| :: a > none[j]
  {
    if none != [] {
      RowIsFull(a, none[..|none| - 1]);
      RowBounds(a, none[..|none| - 1]);
    }
  }

  predicate AllAbove(ans: seq<real>, none: seq<real>) {
    forall i, j | 0 <= i < |ans| && 0 <= j < |none| :: ans[i] > none[j]
  }

  lemma {:induction false} WinsAreFull(ans: seq<real>, none: seq<real>)
    ensures Wins(ans, none) == Pairs(ans, none) as real <==> AllAbove(ans, none)
  {
    if ans != [] {
      var n := |ans| - 1;
      WinsAreFull(ans[..n], none);
      WinsBounds(ans[..n], none);
      RowIsFull(ans[n], none);
      RowBounds(ans[n], none);
      AllAboveMore(ans, none);
      assert Pairs(ans, none) == Pairs(ans[..n], none) + |none|;
      hide AllAbove, Row;
    }
  }

  lemma AllAboveMore(ans: seq<real>, none: seq<real>)
    requires ans != []
    ensures var n := |ans| - 1;
      AllAbove(ans, none) <==> AllAbove(ans[..n], none) && forall j | 0 <= j < |none| :: ans[n] > none[j]
  {}

  /** It is one exactly when every answerable score exceeds every other, and zero
      exactly when it is the other way round. */
  lemma SeparatedIsOne(ans: seq<real>, none: seq<real>)
    requires ans != [] && none != []
    ensures Area(ans, none) == 1.0 <==> AllAbove(ans, none)
    ensures Area(ans, none) == 0.0 <==> AllAbove(none, ans)
  {
    WinsAreFull(ans, none);
    WinsAreFull(none, ans);
    AreaIsProper(ans, none);
    FullQuotient(Wins(ans, none), Pairs(ans, none));
    FullQuotient(Wins(none, ans), Pairs(none, ans));
  }

  lemma FullQuotient(wins: real, pairs: nat)
    requires pairs >= 1
    ensures wins / pairs as real == 1.0 <==> wins == pairs as real
  {}

  lemma {:induction false} RowGrows(a: real, b: real, none: seq<real>)
    requires a <= b
    ensures Row(a, none) <= Row(b, none)
  {
    if none != [] { RowGrows(a, b, none[..|none| - 1]); }
  }

  lemma WithoutUpdated<T>(s: seq<T>, i: nat, x: T)
    requires i < |s|
    ensures Without(s[i := x], i) == Without(s, i)
  {}

  /** Raising an answerable score never lowers the area. */
  lemma RaisingHelps(ans: seq<real>, none: seq<real>, i: nat, x: real)
    requires i < |ans| && ans[i] <= x
    ensures Area(ans, none) <= Area(ans[i := x], none)
  {
    WinsWithout(ans, i, none);
    WinsWithout(ans[i := x], i, none);
    WithoutUpdated(ans, i, x);
    RowGrows(ans[i], x, none);
    hide Wins, Row, Without;
    var p, more := Max(Pairs(ans, none), 1) as real, Wins(ans[i := x], none);
    assert Pairs(ans[i := x], none) == Pairs(ans, none);
    QuotientGrows(Wins(ans, none), more, p);
  }

  lemma QuotientGrows(a: real, b: real, n: real)
    requires n > 0.0 && a <= b
    ensures a / n <= b / n
  {
    assert b / n - a / n == (b - a) / n;
    QuotientAtLeast(0.0, b - a, n);
  }
}
