/** Datatypes shared by every module. */
module Prelude {

  datatype Option<+T> = None | Some(value: T)

  datatype Result<+T, +E> = Ok(value: T) | Err(error: E)

  /** One byte of a file, a line or a UTF-8 string, written as the character
      of its code so that ASCII text reads as a string literal. */
  type Byte = c: char | c as int < 256

  type Text = seq<Byte>

  function Min(a: int, b: int): int {
    if a <= b then a else b
  }

  function Max(a: int, b: int): int {
    if a <= b then b else a
  }

  /** The unsigned `saturating_sub`. */
  function Monus(a: nat, b: nat): nat {
    if a <= b then 0 else a - b
  }

  /** `part` lies in `s` at position i. */
  predicate OccursAt<T(==)>(s: seq<T>, part: seq<T>, i: int) {
    0 <= i && i + |part| <= |s| && s[i..i + |part|] == part
  }

  /** Some element of a nonempty set, always the same one. */
  ghost function Choose<T>(s: set<T>): (x: T)
    requires s != {}
    ensures x in s
  {
    var x :| x in s; x
  }

  /** The sequence with element `i` left out. */
  function Without<T>(s: seq<T>, i: nat): (r: seq<T>)
    requires i < |s|
    ensures |r| == |s| - 1
  {
    s[..i] + s[i + 1..]
  }

  lemma WithoutOne<T>(s: seq<T>, i: nat)
    requires i < |s|
    ensures multiset(s) == multiset(Without(s, i)) + multiset{s[i]}
  {
    assert s == s[..i] + [s[i]] + s[i + 1..];
  }

  /** All sequences of `ss`, one after the other. */
  function Flatten<T>(ss: seq<seq<T>>): seq<T> {
    if ss == [] then [] else Flatten(ss[..|ss| - 1]) + ss[|ss| - 1]
  }

  lemma FlattenAppend<T>(ss: seq<seq<T>>, last: seq<T>)
    ensures Flatten(ss + [last]) == Flatten(ss) + last
  {
    assert (ss + [last])[..|ss|] == ss;
  }

  predicate Distinct<T(==)>(s: seq<T>) {
    forall i, j | 0 <= i < j < |s| :: s[i] != s[j]
  }

  ghost predicate Increasing(at: seq<nat>) {
    forall i, j | 0 <= i < j < |at| :: at[i] < at[j]
  }

  lemma {:induction false} DistinctIsOnce<T>(s: seq<T>)
    ensures Distinct(s) <==> forall x :: multiset(s)[x] <= 1
  {
    if s != [] {
      var n := |s| - 1;
      DistinctIsOnce(s[..n]);
      assert s == s[..n] + [s[n]];
      if Distinct(s) {
        assert s[n] !in s[..n];
        assert multiset(s[..n])[s[n]] == 0;
      } else if forall x :: multiset(s)[x] <= 1 {
        assert multiset(s)[s[n]] == multiset(s[..n])[s[n]] + 1;
        assert forall x :: multiset(s[..n])[x] <= multiset(s)[x];
      }
    }
  }

  lemma PermutedIsDistinct<T>(s: seq<T>, t: seq<T>)
    requires multiset(s) == multiset(t)
    ensures Distinct(s) <==> Distinct(t)
    ensures forall x :: x in s <==> x in t
  {
    DistinctIsOnce(s);
    DistinctIsOnce(t);
    assert forall x :: x in s <==> x in multiset(s);
    assert forall x :: x in t <==> x in multiset(t);
  }

  lemma {:induction false} SubsetSize(a: set<int>, b: set<int>)
    requires a <= b
    ensures |a| <= |b|
    decreases a
  {
    if a != {} {
      var x := Choose(a);
      SubsetSize(a - {x}, b - {x});
    }
  }

  /** The size of a set that is another with at most one element more. */
  lemma OneMore<T>(before: set<T>, after: set<T>, x: T)
    requires x !in before && before <= after <= before + {x}
    ensures |after| == |before| + if x in after then 1 else 0
  {
    if x in after {
      assert after == before + {x};
    } else {
      assert after == before;
    }
  }

  lemma TwoParts<T>(a: set<T>, b: set<T>, all: set<T>)
    requires a !! b && a <= all && b <= all <= a + b
    ensures |all| == |a| + |b|
  {
    assert all == a + b;
  }

  // ---------------------------------------------------------------------
  // Insertion sort
  // ---------------------------------------------------------------------

  /** Puts an element behind all that may stand before it. */
  function InsertBy<T>(s: seq<T>, x: T, leq: (T, T) -> bool): (r: seq<T>)
    ensures |r| == |s| + 1
  {
    if s == [] || leq(s[|s| - 1], x) then s + [x]
    else InsertBy(s[..|s| - 1], x, leq) + [s[|s| - 1]]
  }

  function SortBy<T>(s: seq<T>, leq: (T, T) -> bool): (r: seq<T>)
    ensures |r| == |s|
  {
    if s == [] then [] else InsertBy(SortBy(s[..|s| - 1], leq), s[|s| - 1], leq)
  }

  ghost predicate Orders<T(!new)>(leq: (T, T) -> bool) {
    && (forall a, b :: leq(a, b) || leq(b, a))
    && (forall a, b, c :: leq(a, b) && leq(b, c) ==> leq(a, c))
  }

  ghost predicate SortedBy<T>(s: seq<T>, leq: (T, T) -> bool) {
    forall i, j | 0 <= i <= j < |s| :: leq(s[i], s[j])
  }

  lemma {:induction false} InsertByPermutes<T>(s: seq<T>, x: T, leq: (T, T) -> bool)
    ensures multiset(InsertBy(s, x, leq)) == multiset(s) + multiset{x}
  {
    if s != [] && !leq(s[|s| - 1], x) {
      InsertByPermutes(s[..|s| - 1], x, leq);
      assert s == s[..|s| - 1] + [s[|s| - 1]];
    }
  }

  lemma {:induction false} SortByPermutes<T>(s: seq<T>, leq: (T, T) -> bool)
    ensures multiset(SortBy(s, leq)) == multiset(s)
  {
    if s != [] {
      var init, last := s[..|s| - 1], s[|s| - 1];
      assert SortBy(s, leq) == InsertBy(SortBy(init, leq), last, leq);
      hide SortBy, InsertBy;
      SortByPermutes(init, leq);
      InsertByPermutes(SortBy(init, leq), last, leq);
      assert s == init + [last];
    }
  }

  lemma {:induction false} InsertBySorts<T(!new)>(s: seq<T>, x: T, leq: (T, T) -> bool)
    requires Orders(leq) && SortedBy(s, leq)
    ensures SortedBy(InsertBy(s, x, leq), leq)
  {
    if s == [] || leq(s[|s| - 1], x) {
      LastSorts(s, x, leq);
    } else {
      var init, last := s[..|s| - 1], s[|s| - 1];
      InsertBySorts(init, x, leq);
      InsertByHas(init, x, leq);
      hide InsertBy;
      var r := InsertBy(init, x, leq);
      forall i | 0 <= i < |r| ensures leq(r[i], last) {
        assert r[i] in r;
      }
      InsertByStep(s, x, leq);
      assert leq(last, last);
    }
  }

  lemma LastSorts<T(!new)>(s: seq<T>, x: T, leq: (T, T) -> bool)
    requires Orders(leq) && SortedBy(s, leq) && (s == [] || leq(s[|s| - 1], x))
    ensures SortedBy(s + [x], leq)
  {
    forall i | 0 <= i < |s| ensures leq(s[i], x) {
      assert leq(s[i], s[|s| - 1]);
    }
  }

  lemma InsertByStep<T>(s: seq<T>, x: T, leq: (T, T) -> bool)
    requires s != [] && !leq(s[|s| - 1], x)
    ensures InsertBy(s, x, leq) == InsertBy(s[..|s| - 1], x, leq) + [s[|s| - 1]]
  {}

  lemma InsertByHas<T>(s: seq<T>, x: T, leq: (T, T) -> bool)
    ensures forall y :: y in InsertBy(s, x, leq) <==> y == x || y in s
  {
    InsertByPermutes(s, x, leq);
    hide InsertBy;
    assert forall y :: y in InsertBy(s, x, leq) <==> y in multiset(InsertBy(s, x, leq));
  }

  lemma {:induction false} SortBySorts<T(!new)>(s: seq<T>, leq: (T, T) -> bool)
    requires Orders(leq)
    ensures SortedBy(SortBy(s, leq), leq)
  {
    if s != [] {
      SortBySorts(s[..|s| - 1], leq);
      InsertBySorts(SortBy(s[..|s| - 1], leq), s[|s| - 1], leq);
    }
  }
}
