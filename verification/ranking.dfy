/** Retrieval metrics over a ranking: nDCG@10, hit counts and reciprocal rank.

    The discount 1/log2(i+2) is any positive, nonincreasing function. */
module Ranking {
  import opened Prelude
  import opened Reals
  import opened EvalSchema

  const DEPTH: nat := 10

  ghost predicate Discounting(d: nat -> real) {
    && (forall i: nat :: d(i) > 0.0)
    && (forall i: nat, j: nat | i <= j :: d(j) <= d(i))
  }

  function Pow2(g: nat): (p: real)
    ensures p >= 1.0
  {
    if g == 0 then 1.0 else 2.0 * Pow2(g - 1)
  }

  function Gain(g: nat): (r: real)
    ensures r >= 0.0 && (g >= 1 ==> r >= 1.0)
  {
    Pow2(g) - 1.0
  }

  lemma {:induction false} GainGrows(g: nat, h: nat)
    requires g <= h
    ensures Gain(g) <= Gain(h)
  {
    if g < h { GainGrows(g, h - 1); }
  }

  /** The grade at a rank; beyond the list there is nothing to gain. */
  function At(grades: seq<nat>, i: nat): nat {
    if i < |grades| then grades[i] else 0
  }

  /** What one rank adds: the gain of its grade, discounted. */
  function Term(g: nat, discount: real): real {
    Gain(g) * discount
  }

  /** The discounted gain of the first n ranks. */
  function Discounted(grades: seq<nat>, d: nat -> real, n: nat): real {
    if n == 0 then 0.0 else Discounted(grades, d, n - 1) + Term(At(grades, n - 1), d(n - 1))
  }

  function Cumulated(grades: seq<nat>, n: nat): real {
    if n == 0 then 0.0 else Cumulated(grades, n - 1) + Gain(At(grades, n - 1))
  }

  /** The map a query's relevant list collects into; a later entry wins. */
  function GradeOf(relevant: seq<Relevant>, id: string): nat {
    if relevant == [] then 0
    else if relevant[|relevant| - 1].concept == id then relevant[|relevant| - 1].grade
    else GradeOf(relevant[..|relevant| - 1], id)
  }

  function GradesOf(relevant: seq<Relevant>): seq<nat> {
    if relevant == [] then [] else GradesOf(relevant[..|relevant| - 1]) + [relevant[|relevant| - 1].grade]
  }

  function RankedGrades(ranked: seq<string>, relevant: seq<Relevant>): seq<nat> {
    seq(|ranked|, i requires 0 <= i < |ranked| => GradeOf(relevant, ranked[i]))
  }

  predicate Descending(grades: seq<nat>) {
    forall i, j | 0 <= i <= j < |grades| :: grades[j] <= grades[i]
  }

  predicate Falls(g: nat, h: nat) {
    h <= g
  }

  /** The ideal order: the relevant grades, highest first. */
  function Ideal(grades: seq<nat>): (w: seq<nat>)
    ensures |w| == |grades|
  {
    SortBy(grades, Falls)
  }

  lemma IdealDescends(grades: seq<nat>)
    ensures Descending(Ideal(grades))
  {
    SortBySorts(grades, Falls);
    hide SortBy;
    assert forall i, j | 0 <= i <= j < |grades| :: Falls(Ideal(grades)[i], Ideal(grades)[j]);
  }

  lemma IdealPermutes(grades: seq<nat>)
    ensures multiset(Ideal(grades)) == multiset(grades)
  {
    SortByPermutes(grades, Falls);
  }

  function Dcg(ranked: seq<string>, relevant: seq<Relevant>, d: nat -> real): real {
    Discounted(RankedGrades(ranked, relevant), d, DEPTH)
  }

  function IdealDcg(relevant: seq<Relevant>, d: nat -> real): real {
    Discounted(Ideal(GradesOf(relevant)), d, DEPTH)
  }

  function Ndcg(ranked: seq<string>, relevant: seq<Relevant>, d: nat -> real): real {
    var idcg := IdealDcg(relevant, d);
    if idcg > 0.0 then Dcg(ranked, relevant, d) / idcg else 0.0
  }

  // ---------------------------------------------------------------------
  // The truncated rearrangement inequality
  // ---------------------------------------------------------------------

  function SumGain(grades: seq<nat>): real {
    if grades == [] then 0.0 else SumGain(grades[..|grades| - 1]) + Gain(grades[|grades| - 1])
  }

  lemma {:induction false} SumGainWithout(grades: seq<nat>, i: nat)
    requires i < |grades|
    ensures SumGain(grades) == SumGain(Without(grades, i)) + Gain(grades[i])
  {
    var init := grades[..|grades| - 1];
    if i == |grades| - 1 {
      assert Without(grades, i) == init;
    } else {
      SumGainWithout(init, i);
      var w := Without(grades, i);
      assert w[..|w| - 1] == Without(init, i);
    }
  }

  lemma {:induction false} CumulatedFirst(grades: seq<nat>, n: nat)
    requires grades != [] && n > 0
    ensures Cumulated(grades, n) == Gain(grades[0]) + Cumulated(grades[1..], n - 1)
  {
    if n == 1 {
      assert Cumulated(grades, 0) == 0.0;
    } else {
      CumulatedFirst(grades, n - 1);
    }
  }

  lemma {:induction false} CumulatedNonnegative(grades: seq<nat>, n: nat)
    ensures Cumulated(grades, n) >= 0.0
  {
    if n > 0 { CumulatedNonnegative(grades, n - 1); }
  }

  /** No n of the relevant grades gain more than the n highest. */
  lemma {:induction false} HighestGainMost(chosen: seq<nat>, ideal: seq<nat>, n: nat)
    requires Descending(ideal) && multiset(chosen) <= multiset(ideal) && |chosen| <= n
    ensures SumGain(chosen) <= Cumulated(ideal, n)
    decreases n
  {
    if chosen == [] {
      CumulatedNonnegative(ideal, n);
    } else {
      assert chosen[0] in multiset(chosen) && chosen[0] in multiset(ideal);
      var i := 0;
      if ideal[0] in chosen { i :| 0 <= i < |chosen| && chosen[i] == ideal[0]; }
      assert chosen[i] in multiset(chosen) && chosen[i] in multiset(ideal);
      var x :| 0 <= x < |ideal| && ideal[x] == chosen[i];
      GainGrows(chosen[i], ideal[0]);
      RestIsIncluded(chosen, ideal, i);
      HighestGainMost(Without(chosen, i), ideal[1..], n - 1);
      SumGainWithout(chosen, i);
      CumulatedFirst(ideal, n);
    }
  }

  lemma RestIsIncluded(chosen: seq<nat>, ideal: seq<nat>, i: nat)
    requires i < |chosen| && ideal != [] && multiset(chosen) <= multiset(ideal)
    requires ideal[0] in chosen ==> chosen[i] == ideal[0]
    ensures multiset(Without(chosen, i)) <= multiset(ideal[1..])
  {
    WithoutOne(chosen, i);
    WithoutOne(ideal, 0);
    assert Without(ideal, 0) == ideal[1..];
    assert ideal[0] in chosen <==> ideal[0] in multiset(chosen);
    hide Without;
    BothLoseOne(multiset(chosen), multiset(ideal), multiset(Without(chosen, i)), multiset(ideal[1..]),
                chosen[i], ideal[0]);
  }

  lemma BothLoseOne(c: multiset<nat>, t: multiset<nat>, c': multiset<nat>, t': multiset<nat>, x: nat, top: nat)
    requires c <= t && c == c' + multiset{x} && t == t' + multiset{top}
    requires top in c ==> x == top
    ensures c' <= t'
  {
    forall y: nat
      ensures c'[y] <= t'[y]
    {
      assert c[y] <= t[y];
    }
  }

  /** The discounted lead is at least the cumulated lead at the last discount. */
  predicate Leads(da: real, db: real, ca: real, cb: real, now: real) {
    db - da >= (cb - ca) * now
  }

  /** Summation by parts: cumulated dominance survives any nonincreasing
      discount. */
  lemma {:induction false} DominanceDiscounted(a: seq<nat>, b: seq<nat>, d: nat -> real, n: nat)
    requires Discounting(d) && n > 0
    requires forall j: nat | j <= n :: Cumulated(a, j) <= Cumulated(b, j)
    ensures Leads(Discounted(a, d, n), Discounted(b, d, n), Cumulated(a, n), Cumulated(b, n), d(n - 1))
  {
    hide Leads, Term;
    DiscountedStep(a, d, n);
    DiscountedStep(b, d, n);
    if n == 1 {
      NoLead(d(0));
    } else {
      DominanceDiscounted(a, b, d, n - 1);
    }
    hide Discounted, Cumulated;
    DominanceStep(Discounted(a, d, n - 1), Discounted(b, d, n - 1), Cumulated(a, n - 1), Cumulated(b, n - 1),
                  At(a, n - 1), At(b, n - 1), if n == 1 then d(0) else d(n - 2), d(n - 1));
  }

  lemma NoLead(discount: real)
    ensures Leads(0.0, 0.0, 0.0, 0.0, discount)
  {}

  lemma DominanceStep(da: real, db: real, ca: real, cb: real, x: nat, y: nat, before: real, now: real)
    requires Leads(da, db, ca, cb, before) && ca <= cb && now <= before
    ensures Leads(da + Term(x, now), db + Term(y, now), ca + Gain(x), cb + Gain(y), now)
  {
    hide Gain;
    LeadShrinks(db - da, cb - ca, before, now);
    Distributes(cb - ca, Gain(y) - Gain(x), now);
    assert (cb + Gain(y)) - (ca + Gain(x)) == (cb - ca) + (Gain(y) - Gain(x));
    TermsDiffer(x, y, now);
  }

  lemma LeadShrinks(ahead: real, lead: real, before: real, now: real)
    requires now <= before && lead >= 0.0 && ahead >= lead * before
    ensures ahead >= lead * now
  {
    var slack := before - now;
    assert before == now + slack;
    Distributes(now, slack, lead);
    ProductNonnegative(slack, lead);
  }

  lemma TermsDiffer(x: nat, y: nat, now: real)
    ensures Term(y, now) - Term(x, now) == (Gain(y) - Gain(x)) * now
  {
    hide Gain;
    Distributes(Gain(y) - Gain(x), Gain(x), now);
  }

  lemma DiscountedStep(grades: seq<nat>, d: nat -> real, n: nat)
    requires n > 0
    ensures Discounted(grades, d, n) == Discounted(grades, d, n - 1) + Term(At(grades, n - 1), d(n - 1))
    ensures Cumulated(grades, n) == Cumulated(grades, n - 1) + Gain(At(grades, n - 1))
    ensures Discounted(grades, d, 0) == 0.0 && Cumulated(grades, 0) == 0.0
  {}

  /** The nonzero grades among the first n. */
  function Positive(grades: seq<nat>, n: nat): (p: seq<nat>)
    ensures |p| <= n
  {
    if n == 0 then []
    else Positive(grades, n - 1) + (if At(grades, n - 1) > 0 then [At(grades, n - 1)] else [])
  }

  lemma PositiveStep(grades: seq<nat>, n: nat)
    requires n > 0
    ensures Positive(grades, n)
         == if At(grades, n - 1) > 0 then Positive(grades, n - 1) + [At(grades, n - 1)] else Positive(grades, n - 1)
  {}

  lemma SumGainAppend(p: seq<nat>, g: nat)
    ensures SumGain(p + [g]) == SumGain(p) + Gain(g)
  {
    hide Gain;
    assert (p + [g])[..|p|] == p;
  }

  lemma CumulatedStep(grades: seq<nat>, n: nat)
    requires n > 0
    ensures Cumulated(grades, n) == Cumulated(grades, n - 1) + Gain(At(grades, n - 1))
    ensures At(grades, n - 1) == 0 ==> Cumulated(grades, n) == Cumulated(grades, n - 1)
  {
    hide At;
  }

  lemma {:induction false} PositiveGains(grades: seq<nat>, n: nat)
    ensures SumGain(Positive(grades, n)) == Cumulated(grades, n)
  {
    if n > 0 {
      hide Positive, SumGain, Cumulated, Gain, At;
      PositiveGains(grades, n - 1);
      PositiveStep(grades, n);
      CumulatedStep(grades, n);
      SumGainAppend(Positive(grades, n - 1), At(grades, n - 1));
    }
  }

  predicate DistinctConcepts(relevant: seq<Relevant>) {
    forall i, j | 0 <= i < j < |relevant| :: relevant[i].concept != relevant[j].concept
  }

  lemma {:induction false} GradeFromEntry(relevant: seq<Relevant>, id: string) returns (p: nat)
    requires GradeOf(relevant, id) > 0
    ensures p < |relevant| && relevant[p] == Relevant(id, GradeOf(relevant, id))
  {
    if relevant[|relevant| - 1].concept == id {
      p := |relevant| - 1;
    } else {
      p := GradeFromEntry(relevant[..|relevant| - 1], id);
    }
  }

  lemma {:induction false} GradeWithout(relevant: seq<Relevant>, p: nat, id: string)
    requires p < |relevant| && relevant[p].concept != id
    ensures GradeOf(Without(relevant, p), id) == GradeOf(relevant, id)
  {
    var init := relevant[..|relevant| - 1];
    if p == |relevant| - 1 {
      assert Without(relevant, p) == init;
    } else {
      var w := Without(relevant, p);
      assert w[..|w| - 1] == Without(init, p) && w[|w| - 1] == relevant[|relevant| - 1];
      GradeWithout(init, p, id);
    }
  }

  lemma {:induction false} GradesWithout(relevant: seq<Relevant>, p: nat)
    requires p < |relevant|
    ensures multiset(GradesOf(relevant)) == multiset(GradesOf(Without(relevant, p))) + multiset{relevant[p].grade}
  {
    hide GradesOf;
    var init, last := relevant[..|relevant| - 1], relevant[|relevant| - 1];
    assert relevant == init + [last];
    GradesLast(init, last);
    if p == |relevant| - 1 {
      assert Without(relevant, p) == init;
    } else {
      assert Without(relevant, p) == Without(init, p) + [last];
      hide Without;
      GradesLast(Without(init, p), last);
      GradesWithout(init, p);
    }
  }

  lemma GradesLast(relevant: seq<Relevant>, last: Relevant)
    ensures multiset(GradesOf(relevant + [last])) == multiset(GradesOf(relevant)) + multiset{last.grade}
  {
    assert (relevant + [last])[..|relevant|] == relevant;
  }

  lemma {:induction false} PositiveOfShorter(a: seq<nat>, b: seq<nat>, n: nat)
    requires forall i: nat | i < n :: At(a, i) == At(b, i)
    ensures Positive(a, n) == Positive(b, n)
  {
    if n > 0 { PositiveOfShorter(a, b, n - 1); }
  }

  /** The positive grades of the first n ranks are among the relevant ones. */
  ghost predicate Covered(ranked: seq<string>, n: nat, relevant: seq<Relevant>) {
    multiset(Positive(RankedGrades(ranked, relevant), n)) <= multiset(GradesOf(relevant))
  }

  lemma CoveredNone(ranked: seq<string>, relevant: seq<Relevant>)
    ensures Covered(ranked, 0, relevant)
  {
    assert Positive(RankedGrades(ranked, relevant), 0) == [];
  }

  lemma CoveredUnranked(ranked: seq<string>, relevant: seq<Relevant>, n: nat)
    requires n > 0 && Covered(ranked, n - 1, relevant) && At(RankedGrades(ranked, relevant), n - 1) == 0
    ensures Covered(ranked, n, relevant)
  {
    hide RankedGrades, GradesOf;
    PositiveStep(RankedGrades(ranked, relevant), n);
  }

  /** Distinct ranked concepts use up distinct relevant entries. */
  lemma {:induction false} RankedGradesAreRelevant(ranked: seq<string>, relevant: seq<Relevant>, n: nat)
    requires Distinct(ranked) && DistinctConcepts(relevant)
    ensures multiset(Positive(RankedGrades(ranked, relevant), n)) <= multiset(GradesOf(relevant))
  {
    GradesCovered(ranked, relevant, n);
  }

  lemma {:induction false} GradesCovered(ranked: seq<string>, relevant: seq<Relevant>, n: nat)
    requires Distinct(ranked) && DistinctConcepts(relevant)
    ensures Covered(ranked, n, relevant)
    decreases n
  {
    hide Covered, GradeOf, RankedGrades, At, Without, Distinct, DistinctConcepts;
    if n == 0 {
      CoveredNone(ranked, relevant);
    } else {
      RankedAt(ranked, relevant, n - 1);
      if At(RankedGrades(ranked, relevant), n - 1) == 0 {
        GradesCovered(ranked, relevant, n - 1);
        CoveredUnranked(ranked, relevant, n);
      } else {
        var p := GradeFromEntry(relevant, ranked[n - 1]);
        WithoutStaysDistinct(relevant, p);
        GradesCovered(ranked, Without(relevant, p), n - 1);
        OneRankedMore(ranked, relevant, n, p);
      }
    }
  }

  lemma RankedAt(ranked: seq<string>, relevant: seq<Relevant>, i: nat)
    ensures At(RankedGrades(ranked, relevant), i) == if i < |ranked| then GradeOf(relevant, ranked[i]) else 0
  {}

  lemma WithoutStaysDistinct(relevant: seq<Relevant>, p: nat)
    requires DistinctConcepts(relevant) && p < |relevant|
    ensures DistinctConcepts(Without(relevant, p))
  {}

  lemma OneRankedMore(ranked: seq<string>, relevant: seq<Relevant>, n: nat, p: nat)
    requires Distinct(ranked) && 0 < n <= |ranked| && p < |relevant|
    requires relevant[p] == Relevant(ranked[n - 1], GradeOf(relevant, ranked[n - 1])) && relevant[p].grade > 0
    requires Covered(ranked, n - 1, Without(relevant, p))
    ensures Covered(ranked, n, relevant)
  {
    var g := relevant[p].grade;
    RankedAt(ranked, relevant, n - 1);
    PositiveStep(RankedGrades(ranked, relevant), n);
    OthersKeepGrades(ranked, relevant, p, n);
    GradesWithout(relevant, p);
    hide GradesOf, GradeOf, Positive, Without, At, RankedGrades, Distinct;
    BothGainOne(Positive(RankedGrades(ranked, Without(relevant, p)), n - 1), GradesOf(Without(relevant, p)), g);
  }

  lemma BothGainOne(p: seq<nat>, all: seq<nat>, g: nat)
    requires multiset(p) <= multiset(all)
    ensures multiset(p + [g]) <= multiset(all) + multiset{g}
  {}

  /** Leaving out the entry of one ranked concept changes no other's grade. */
  lemma OthersKeepGrades(ranked: seq<string>, relevant: seq<Relevant>, p: nat, n: nat)
    requires Distinct(ranked) && p < |relevant| && 0 < n <= |ranked| && relevant[p].concept == ranked[n - 1]
    ensures Positive(RankedGrades(ranked, relevant), n - 1)
         == Positive(RankedGrades(ranked, Without(relevant, p)), n - 1)
  {
    var a, b := RankedGrades(ranked, relevant), RankedGrades(ranked, Without(relevant, p));
    forall i: nat | i < n - 1
      ensures At(a, i) == At(b, i)
    {
      assert ranked[i] != ranked[n - 1];
      GradeWithout(relevant, p, ranked[i]);
    }
    PositiveOfShorter(a, b, n - 1);
  }

  /** In every prefix the ideal order has gained at least as much. */
  lemma IdealDominates(ranked: seq<string>, relevant: seq<Relevant>, j: nat)
    requires Distinct(ranked) && DistinctConcepts(relevant)
    ensures Cumulated(RankedGrades(ranked, relevant), j) <= Cumulated(Ideal(GradesOf(relevant)), j)
  {
    var grades, ideal := RankedGrades(ranked, relevant), Ideal(GradesOf(relevant));
    IdealDescends(GradesOf(relevant));
    IdealPermutes(GradesOf(relevant));
    hide GradesOf, Ideal, Cumulated, Positive, SumGain;
    RankedGradesAreRelevant(ranked, relevant, j);
    PositiveGains(grades, j);
    HighestGainMost(Positive(grades, j), ideal, j);
  }

  lemma DcgAtMostIdeal(ranked: seq<string>, relevant: seq<Relevant>, d: nat -> real)
    requires Discounting(d) && Distinct(ranked) && DistinctConcepts(relevant)
    ensures Dcg(ranked, relevant, d) <= IdealDcg(relevant, d)
  {
    var grades, ideal := RankedGrades(ranked, relevant), Ideal(GradesOf(relevant));
    hide GradesOf, Ideal, Cumulated, Discounted;
    forall j: nat | j <= DEPTH
      ensures Cumulated(grades, j) <= Cumulated(ideal, j)
    {
      IdealDominates(ranked, relevant, j);
    }
    DominanceDiscounted(grades, ideal, d, DEPTH);
    ProductNonnegative(Cumulated(ideal, DEPTH) - Cumulated(grades, DEPTH), d(DEPTH - 1));
  }

  lemma {:induction false} DiscountedNonnegative(grades: seq<nat>, d: nat -> real, n: nat)
    requires Discounting(d)
    ensures Discounted(grades, d, n) >= 0.0
    ensures n > 0 && At(grades, 0) > 0 ==> Discounted(grades, d, n) > 0.0
  {
    if n > 0 {
      DiscountedNonnegative(grades, d, n - 1);
      assert Gain(At(grades, n - 1)) * d(n - 1) >= 0.0;
      if n == 1 && At(grades, 0) > 0 {
        assert Gain(At(grades, 0)) * d(0) >= 1.0 * d(0);
      }
    }
  }

  /** nDCG@10 lies in [0, 1] for any ranking of distinct concepts and any query
      of a sound set. */
  lemma NdcgInUnitInterval(set_: EvalSet, maxBytes: nat, q: Query, ranked: seq<string>, d: nat -> real)
    requires Sound(set_, maxBytes) && q in set_.queries && q.kind == "answerable"
    requires Discounting(d) && Distinct(ranked)
    ensures 0.0 <= Ndcg(ranked, q.relevant, d) <= 1.0
    ensures IdealDcg(q.relevant, d) > 0.0 && DistinctConcepts(q.relevant)
  {
    var n :| 0 <= n < |set_.queries| && set_.queries[n] == q;
    assert QueryOk(set_.queries[n], set_.corpus, maxBytes);
    var grades, ideal := RankedGrades(ranked, q.relevant), Ideal(GradesOf(q.relevant));
    IdealStartsHigh(q.relevant);
    DiscountedNonnegative(ideal, d, DEPTH);
    DiscountedNonnegative(grades, d, DEPTH);
    DcgAtMostIdeal(ranked, q.relevant, d);
    UnitQuotient(Dcg(ranked, q.relevant, d), IdealDcg(q.relevant, d));
  }

  ghost predicate StrictlyDiscounting(d: nat -> real) {
    Discounting(d) && forall i: nat, j: nat | i < j :: d(j) < d(i)
  }

  /** A discounted lead beyond the cumulated one. */
  predicate LeadsStrictly(da: real, db: real, ca: real, cb: real, now: real) {
    db - da > (cb - ca) * now
  }

  /** Being behind in one earlier prefix costs something, whatever is caught up. */
  lemma {:induction false} StrictDominance(a: seq<nat>, b: seq<nat>, d: nat -> real, n: nat, j: nat)
    requires StrictlyDiscounting(d) && 0 < j < n
    requires forall k: nat | k <= n :: Cumulated(a, k) <= Cumulated(b, k)
    requires Cumulated(a, j) < Cumulated(b, j)
    ensures LeadsStrictly(Discounted(a, d, n), Discounted(b, d, n), Cumulated(a, n), Cumulated(b, n), d(n - 1))
  {
    hide Leads, LeadsStrictly, Term;
    DiscountedStep(a, d, n);
    DiscountedStep(b, d, n);
    if j < n - 1 {
      StrictDominance(a, b, d, n - 1, j);
    } else {
      DominanceDiscounted(a, b, d, n - 1);
    }
    hide Discounted, Cumulated;
    StrictStep(Discounted(a, d, n - 1), Discounted(b, d, n - 1), Cumulated(a, n - 1), Cumulated(b, n - 1),
               At(a, n - 1), At(b, n - 1), d(n - 2), d(n - 1));
  }

  lemma StrictStep(da: real, db: real, ca: real, cb: real, x: nat, y: nat, before: real, now: real)
    requires 0.0 < now < before && ca <= cb
    requires LeadsStrictly(da, db, ca, cb, before) || (Leads(da, db, ca, cb, before) && ca < cb)
    ensures LeadsStrictly(da + Term(x, now), db + Term(y, now), ca + Gain(x), cb + Gain(y), now)
  {
    hide Gain;
    StrictLead(db - da, cb - ca, before, now);
    Distributes(cb - ca, Gain(y) - Gain(x), now);
    assert (cb + Gain(y)) - (ca + Gain(x)) == (cb - ca) + (Gain(y) - Gain(x));
    TermsDiffer(x, y, now);
  }

  lemma StrictLead(ahead: real, lead: real, before: real, now: real)
    requires 0.0 < now < before && lead >= 0.0
    requires ahead > lead * before || (ahead >= lead * before && lead > 0.0)
    ensures ahead > lead * now
  {
    var slack := before - now;
    assert before == now + slack;
    Distributes(now, slack, lead);
    if lead > 0.0 {
      ProductPositive(slack, lead);
    }
  }

  /** With a strictly decreasing discount, order matters at every rank. */
  lemma EqualOnlyInOrder(a: seq<nat>, b: seq<nat>, d: nat -> real, n: nat, i: nat)
    requires StrictlyDiscounting(d) && i < n
    requires forall k: nat | k <= n :: Cumulated(a, k) <= Cumulated(b, k)
    requires Discounted(a, d, n) == Discounted(b, d, n)
    ensures At(a, i) == At(b, i)
  {
    hide Term;
    NeverBehind(a, b, d, n, i + 1);
    if i > 0 { NeverBehind(a, b, d, n, i); }
    DiscountedStep(a, d, i + 1);
    DiscountedStep(b, d, i + 1);
    GainInjective(At(a, i), At(b, i));
  }

  lemma NeverBehind(a: seq<nat>, b: seq<nat>, d: nat -> real, n: nat, j: nat)
    requires StrictlyDiscounting(d) && 0 < j <= n
    requires forall k: nat | k <= n :: Cumulated(a, k) <= Cumulated(b, k)
    requires Discounted(a, d, n) == Discounted(b, d, n)
    ensures Cumulated(a, j) == Cumulated(b, j)
  {
    hide Cumulated, Discounted;
    DominanceDiscounted(a, b, d, n);
    var lead := Cumulated(b, n) - Cumulated(a, n);
    assert lead * d(n - 1) >= 0.0;
    assert lead > 0.0 ==> lead * d(n - 1) > 0.0;
    if Cumulated(a, j) < Cumulated(b, j) && j < n {
      StrictDominance(a, b, d, n, j);
    }
  }

  lemma {:induction false} GainStrict(g: nat, h: nat)
    requires g < h
    ensures Gain(g) < Gain(h)
  {
    GainGrows(g, h - 1);
    assert Gain(h) == 2.0 * Gain(h - 1) + 1.0;
  }

  lemma GainInjective(g: nat, h: nat)
    requires Gain(g) == Gain(h)
    ensures g == h
  {
    if g < h {
      GainStrict(g, h);
    } else if h < g {
      GainStrict(h, g);
    }
  }

  /** A ranking reaches nDCG@10 = 1 exactly when its first ten ranks carry the
      ideal grades. */
  lemma NdcgIsOneExactWhen(set_: EvalSet, maxBytes: nat, q: Query, ranked: seq<string>, d: nat -> real)
    requires Sound(set_, maxBytes) && q in set_.queries && q.kind == "answerable"
    requires StrictlyDiscounting(d) && Distinct(ranked)
    ensures Ndcg(ranked, q.relevant, d) == 1.0 <==>
            forall i: nat | i < DEPTH :: At(RankedGrades(ranked, q.relevant), i) == At(Ideal(GradesOf(q.relevant)), i)
  {
    hide Sound;
    NdcgInUnitInterval(set_, maxBytes, q, ranked, d);
    var grades, ideal := RankedGrades(ranked, q.relevant), Ideal(GradesOf(q.relevant));
    var x, y := Dcg(ranked, q.relevant, d), IdealDcg(q.relevant, d);
    assert Ndcg(ranked, q.relevant, d) == 1.0 <==> x == y by {
      assert x == (x / y) * y;
    }
    hide Cumulated, Discounted, GradesOf, Ideal, RankedGrades;
    if forall i: nat | i < DEPTH :: At(grades, i) == At(ideal, i) {
      SameGradesSameGain(grades, ideal, d, DEPTH);
    } else if x == y {
      var i: nat :| i < DEPTH && At(grades, i) != At(ideal, i);
      forall k: nat | k <= DEPTH ensures Cumulated(grades, k) <= Cumulated(ideal, k) {
        IdealDominates(ranked, q.relevant, k);
      }
      EqualOnlyInOrder(grades, ideal, d, DEPTH, i);
    }
  }

  lemma {:induction false} SameGradesSameGain(a: seq<nat>, b: seq<nat>, d: nat -> real, n: nat)
    requires forall i: nat | i < n :: At(a, i) == At(b, i)
    ensures Discounted(a, d, n) == Discounted(b, d, n)
  {
    if n > 0 { SameGradesSameGain(a, b, d, n - 1); }
  }

  lemma IdealStartsHigh(relevant: seq<Relevant>)
    requires exists i | 0 <= i < |relevant| :: relevant[i].grade == 2
    ensures At(Ideal(GradesOf(relevant)), 0) > 0
  {
    var i :| 0 <= i < |relevant| && relevant[i].grade == 2;
    GradesWithout(relevant, i);
    IdealDescends(GradesOf(relevant));
    IdealPermutes(GradesOf(relevant));
    var ideal := Ideal(GradesOf(relevant));
    assert 2 in multiset(ideal);
    var j :| 0 <= j < |ideal| && ideal[j] == 2;
    assert ideal[j] <= ideal[0];
  }

  /** Ranking a concept twice breaks the bound: distinctness is needed. */
  lemma RankedTwiceOverflows(id: string, g: nat, d: nat -> real)
    requires Discounting(d) && g > 0
    ensures Ndcg([id, id], [Relevant(id, g)], d) > 1.0
  {
    var ranked, relevant := [id, id], [Relevant(id, g)];
    OnlyGrade(id, g);
    TwiceRanked(id, relevant, g);
    TwoBeatOne(g, d);
    hide Discounted, Ideal, GradesOf, GradeOf, RankedGrades;
    var x, y := Discounted([g, g], d, DEPTH), Discounted([g], d, DEPTH);
    assert Dcg(ranked, relevant, d) == x && IdealDcg(relevant, d) == y;
    QuotientAtMost(x, 1.0, y);
  }

  lemma TwiceRanked(id: string, relevant: seq<Relevant>, g: nat)
    requires GradeOf(relevant, id) == g
    ensures RankedGrades([id, id], relevant) == [g, g]
  {
    hide GradeOf;
  }

  lemma TwoBeatOne(g: nat, d: nat -> real)
    requires Discounting(d) && g > 0
    ensures Discounted([g, g], d, DEPTH) > Discounted([g], d, DEPTH) > 0.0
  {
    hide Discounted, Term;
    TailGainsNothing([g], d, 1, DEPTH);
    TailGainsNothing([g, g], d, 2, DEPTH);
    DiscountedStep([g], d, 1);
    DiscountedStep([g, g], d, 1);
    DiscountedStep([g, g], d, 2);
    TermPositive(g, d(0));
    TermPositive(g, d(1));
  }

  lemma TermPositive(g: nat, discount: real)
    requires g > 0 && discount > 0.0
    ensures Term(g, discount) > 0.0
  {
    MulAtMost(1.0, Gain(g), discount);
  }

  lemma OnlyGrade(id: string, g: nat)
    ensures GradesOf([Relevant(id, g)]) == [g] && Ideal([g]) == [g]
    ensures GradeOf([Relevant(id, g)], id) == g
  {
    var relevant := [Relevant(id, g)];
    assert relevant[..0] == [] && [g][..0] == [];
    assert GradesOf([]) == [] && [] + [g] == [g];
  }

  lemma {:induction false} TailGainsNothing(grades: seq<nat>, d: nat -> real, from: nat, n: nat)
    requires |grades| <= from <= n
    ensures Discounted(grades, d, n) == Discounted(grades, d, from)
  {
    if from < n {
      TailGainsNothing(grades, d, from, n - 1);
      assert Gain(At(grades, n - 1)) == 0.0;
    }
  }

  // ---------------------------------------------------------------------
  // The accumulators
  // ---------------------------------------------------------------------

  datatype Acc = Acc(n: nat, hit1: nat, hit5: nat, hit10: nat, rr: real, ndcg: real) {
    function Plus(a: Acc): Acc {
      Acc(n + a.n, hit1 + a.hit1, hit5 + a.hit5, hit10 + a.hit10, rr + a.rr, ndcg + a.ndcg)
    }
  }

  const EMPTY := Acc(0, 0, 0, 0, 0.0, 0.0)

  datatype Key = All | Split(split: string) | Family(family: string)

  /** A scored answerable query: where its first grade-2 concept was ranked, if
      it was, and its nDCG. */
  datatype Scored = Scored(split: string, family: string, first: Option<nat>, ndcg: real)

  function FirstHit(ranked: seq<string>, relevant: seq<Relevant>): (first: Option<nat>)
    ensures first.None? ==> forall i | 0 <= i < |ranked| :: GradeOf(relevant, ranked[i]) != 2
    ensures first.Some? ==>
              && first.value < |ranked| && GradeOf(relevant, ranked[first.value]) == 2
              && forall i | 0 <= i < first.value :: GradeOf(relevant, ranked[i]) != 2
  {
    if ranked == [] then None
    else if GradeOf(relevant, ranked[0]) == 2 then Some(0)
    else
      match FirstHit(ranked[1..], relevant)
      case None => None
      case Some(r) => Some(r + 1)
  }

  function Score(q: Query, ranked: seq<string>, d: nat -> real): Scored {
    Scored(q.split, q.family, FirstHit(ranked, q.relevant), Ndcg(ranked, q.relevant, d))
  }

  function Bump(hit: bool): nat {
    if hit then 1 else 0
  }

  function One(s: Scored): Acc {
    match s.first
    case None => Acc(1, 0, 0, 0, 0.0, s.ndcg)
    case Some(r) => Acc(1, Bump(r < 1), Bump(r < 5), Bump(r < 10), 1.0 / (r + 1) as real, s.ndcg)
  }

  predicate CountsUnder(s: Scored, key: Key) {
    key == All || key == Split(s.split) || key == Family(s.family)
  }

  /** What a key's accumulator holds after the queries. */
  function Total(queries: seq<Scored>, key: Key): Acc {
    if queries == [] then EMPTY
    else
      var before, last := Total(queries[..|queries| - 1], key), queries[|queries| - 1];
      if CountsUnder(last, key) then before.Plus(One(last)) else before
  }

  function KeysOf(s: Scored): seq<Key> {
    [All, Split(s.split), Family(s.family)]
  }

  function Read<K>(acc: map<K, Acc>, key: K): Acc {
    if key in acc then acc[key] else EMPTY
  }

  /** The body of the loop over a query's keys. */
  method AddUnder<K>(acc: map<K, Acc>, key: K, q: Scored) returns (out: map<K, Acc>)
    ensures out == acc[key := Read(acc, key).Plus(One(q))]
  {
    var a := if key in acc then acc[key] else EMPTY;
    a := a.(n := a.n + 1);
    if q.first.Some? {
      var r := q.first.value;
      a := a.(hit1 := a.hit1 + Bump(r < 1), hit5 := a.hit5 + Bump(r < 5), hit10 := a.hit10 + Bump(r < 10),
              rr := a.rr + 1.0 / (r + 1) as real);
    }
    a := a.(ndcg := a.ndcg + q.ndcg);
    out := acc[key := a];
  }

  /** The query's first k keys. */
  predicate UnderFirst(q: Scored, key: Key, k: nat) {
    (k > 0 && key == All) || (k > 1 && key == Split(q.split)) || (k > 2 && key == Family(q.family))
  }

  /** One query added under its three keys. */
  method AddQuery(acc: map<Key, Acc>, q: Scored) returns (out: map<Key, Acc>)
    ensures forall key :: key in out <==> key in acc || CountsUnder(q, key)
    ensures forall key :: Read(out, key)
                       == if CountsUnder(q, key) then Read(acc, key).Plus(One(q)) else Read(acc, key)
  {
    hide One;
    out := acc;
    for k := 0 to 3
      invariant forall key :: key in out <==> key in acc || UnderFirst(q, key, k)
      invariant forall key :: Read(out, key)
                           == if UnderFirst(q, key, k) then Read(acc, key).Plus(One(q)) else Read(acc, key)
    {
      out := AddUnder(out, KeysOf(q)[k], q);
    }
  }

  lemma TotalOneMore(queries: seq<Scored>, q: Scored, key: Key)
    ensures Total(queries + [q], key)
         == if CountsUnder(q, key) then Total(queries, key).Plus(One(q)) else Total(queries, key)
  {
    assert (queries + [q])[..|queries|] == queries;
  }

  /** The accumulation loop over the queries. */
  method Accumulate(queries: seq<Scored>) returns (acc: map<Key, Acc>)
    ensures forall key :: key in acc <==> exists i | 0 <= i < |queries| :: CountsUnder(queries[i], key)
    ensures forall key | key in acc :: acc[key] == Total(queries, key)
  {
    hide One;
    acc := map[];
    for i := 0 to |queries|
      invariant forall key :: key in acc <==> exists j | 0 <= j < i :: CountsUnder(queries[j], key)
      invariant forall key :: Read(acc, key) == Total(queries[..i], key)
    {
      assert queries[..i + 1] == queries[..i] + [queries[i]];
      forall key {
        TotalOneMore(queries[..i], queries[i], key);
      }
      hide Total;
      acc := AddQuery(acc, queries[i]);
    }
    assert queries[..|queries|] == queries;
  }

  ghost predicate Coherent(a: Acc) {
    && a.hit1 <= a.hit5 <= a.hit10 <= a.n
    && a.hit1 as real <= a.rr <= a.n as real
    && 0.0 <= a.ndcg <= a.n as real
  }

  /** In every accumulator the hits nest, the reciprocal ranks lie between the
      top hits and the count, and the nDCG sum is at most the count. */
  lemma {:induction false} TotalsCoherent(queries: seq<Scored>, key: Key)
    requires forall i | 0 <= i < |queries| :: 0.0 <= queries[i].ndcg <= 1.0
    ensures Coherent(Total(queries, key))
  {
    if queries != [] {
      TotalsCoherent(queries[..|queries| - 1], key);
      var last := queries[|queries| - 1];
      if last.first.Some? { Reciprocal(last.first.value); }
    }
  }

  lemma Reciprocal(r: nat)
    ensures 0.0 < 1.0 / (r + 1) as real <= 1.0
    ensures r == 0 ==> 1.0 / (r + 1) as real == 1.0
  {
    var n := (r + 1) as real;
    assert 1.0 / n <= n / n;
  }

  lemma TotalOfNone(key: Key)
    ensures Total([], key) == EMPTY
  {}

  lemma PlusEmpty(a: Acc)
    ensures a.Plus(EMPTY) == a
  {
    assert a.Plus(EMPTY).n == a.n;
  }

  lemma PlusSwaps(a: Acc, b: Acc, c: Acc)
    ensures a.Plus(b).Plus(c) == a.Plus(c).Plus(b) && a.Plus(b).Plus(c) == a.Plus(b.Plus(c))
  {}

  /** Two splits that cover the queries add up to the overall numbers. */
  lemma {:induction false} TwoSplitsAddUp(queries: seq<Scored>, x: string, y: string)
    requires x != y && forall i | 0 <= i < |queries| :: queries[i].split == x || queries[i].split == y
    ensures Total(queries, All) == Total(queries, Split(x)).Plus(Total(queries, Split(y)))
  {
    hide Total, One, Acc.Plus;
    if queries == [] {
      TotalOfNone(All);
      TotalOfNone(Split(x));
      TotalOfNone(Split(y));
      PlusEmpty(EMPTY);
    } else {
      var init, last := queries[..|queries| - 1], queries[|queries| - 1];
      assert queries == init + [last];
      TwoSplitsAddUp(init, x, y);
      TotalOneMore(init, last, All);
      TotalOneMore(init, last, Split(x));
      TotalOneMore(init, last, Split(y));
      PlusSwaps(Total(init, Split(x)), Total(init, Split(y)), One(last));
    }
  }

  /** The dev and held-out numbers of a sound set's queries add up to all. */
  lemma SplitsAddUp(queries: seq<Scored>)
    requires forall i | 0 <= i < |queries| :: queries[i].split in SPLITS
    ensures Total(queries, All) == Total(queries, Split("dev")).Plus(Total(queries, Split("held_out")))
  {
    hide Total, One, Acc.Plus;
    assert |"dev"| != |"held_out"|;
    TwoSplitsAddUp(queries, "dev", "held_out");
  }
}
