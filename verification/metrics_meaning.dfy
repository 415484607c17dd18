/** What the retrieval metrics count, in terms of queries, concepts and ranks. */
module MetricsMeaning {
  import opened Prelude
  import opened EvalSchema
  import opened Ranking
  import opened EvaluationRun
  import opened RecallRun

  // ---------------------------------------------------------------------
  // One query
  // ---------------------------------------------------------------------

  /** A concept that answers the query best stands among the first k. */
  predicate Finds(q: Query, ranked: seq<string>, k: nat) {
    exists i | 0 <= i < |ranked| :: i < k && Relevant(ranked[i], 2) in q.relevant
  }

  lemma GradeTwo(relevant: seq<Relevant>, id: string)
    requires DistinctConcepts(relevant)
    ensures GradeOf(relevant, id) == 2 <==> Relevant(id, 2) in relevant
  {
    if GradeOf(relevant, id) == 2 {
      var p := GradeFromEntry(relevant, id);
    }
    if Relevant(id, 2) in relevant {
      var p :| 0 <= p < |relevant| && relevant[p] == Relevant(id, 2);
      GradeOfEntry(relevant, p);
    }
  }

  /** The rank of the first hit is below k exactly when the first k have one, and
      its reciprocal is what the query adds. */
  lemma FirstIsFound(q: Query, ranked: seq<string>, d: nat -> real, k: nat)
    requires DistinctConcepts(q.relevant)
    ensures var s := Score(q, ranked, d);
      && (s.first.Some? && s.first.value < k <==> Finds(q, ranked, k))
      && s.split == q.split && s.family == q.family && s.ndcg == Ndcg(ranked, q.relevant, d)
  {
    hide GradeOf, DistinctConcepts, Ndcg;
    forall id ensures GradeOf(q.relevant, id) == 2 <==> Relevant(id, 2) in q.relevant {
      GradeTwo(q.relevant, id);
    }
    var first := FirstHit(ranked, q.relevant);
    hide FirstHit;
    if first.Some? && first.value < k {
      assert Relevant(ranked[first.value], 2) in q.relevant;
    }
  }

  // ---------------------------------------------------------------------
  // All queries
  // ---------------------------------------------------------------------

  /** What a key stands for. */
  predicate Concerns(key: Key, split: string, family: string) {
    match key
    case All => true
    case Split(x) => split == x
    case Family(x) => family == x
  }

  /** A key's number is about the answerable queries of its split or family that
      await no review. */
  predicate IsAsked(q: Query, key: Key) {
    q.review == None && q.kind != "no_answer" && Concerns(key, q.split, q.family)
  }

  function Asked(queries: seq<Query>, key: Key): set<int> {
    set i | 0 <= i < |queries| && IsAsked(queries[i], key)
  }

  function Found(queries: seq<Query>, rankings: seq<seq<string>>, key: Key, k: nat): set<int>
    requires |rankings| == |queries|
  {
    set i | i in Asked(queries, key) && Finds(queries[i], rankings[i], k)
  }

  ghost predicate Listed(queries: seq<Query>) {
    forall i | 0 <= i < |queries| :: DistinctConcepts(queries[i].relevant)
  }

  lemma AskedOneMore(queries: seq<Query>, key: Key)
    requires queries != []
    ensures var n := |queries| - 1;
      |Asked(queries, key)| == |Asked(queries[..n], key)| + if IsAsked(queries[n], key) then 1 else 0
  {
    hide IsAsked;
    var n := |queries| - 1;
    OneMore(Asked(queries[..n], key), Asked(queries, key), n);
  }

  lemma FoundOneMore(queries: seq<Query>, rankings: seq<seq<string>>, key: Key, k: nat)
    requires queries != [] && |rankings| == |queries|
    ensures var n := |queries| - 1;
      |Found(queries, rankings, key, k)| == |Found(queries[..n], rankings[..n], key, k)|
        + if IsAsked(queries[n], key) && Finds(queries[n], rankings[n], k) then 1 else 0
  {
    hide IsAsked, Finds;
    var n := |queries| - 1;
    OneMore(Found(queries[..n], rankings[..n], key, k), Found(queries, rankings, key, k), n);
  }

  /** The numbers of a key, as numbers of queries. */
  ghost predicate Counts(a: Acc, queries: seq<Query>, rankings: seq<seq<string>>, key: Key)
    requires |rankings| == |queries|
  {
    && a.n == |Asked(queries, key)|
    && a.hit1 == |Found(queries, rankings, key, 1)|
    && a.hit5 == |Found(queries, rankings, key, 5)|
    && a.hit10 == |Found(queries, rankings, key, 10)|
  }

  lemma ScoredOneMore(q: Query, ranked: seq<string>, d: nat -> real, a: Acc, key: Key)
    requires DistinctConcepts(q.relevant)
    ensures var s := Score(q, ranked, d);
      && (CountsUnder(s, key) <==> Concerns(key, q.split, q.family))
      && a.Plus(One(s)).n == a.n + 1
      && a.Plus(One(s)).hit1 == a.hit1 + (if Finds(q, ranked, 1) then 1 else 0)
      && a.Plus(One(s)).hit5 == a.hit5 + (if Finds(q, ranked, 5) then 1 else 0)
      && a.Plus(One(s)).hit10 == a.hit10 + (if Finds(q, ranked, 10) then 1 else 0)
  {
    FirstIsFound(q, ranked, d, 1);
    FirstIsFound(q, ranked, d, 5);
    FirstIsFound(q, ranked, d, 10);
    hide Finds, FirstHit, Ndcg, DistinctConcepts;
  }

  /** Hits at 1, 5 and 10 are the numbers of scored queries for which the ranking
      has a grade-2 concept among its first 1, 5 and 10. */
  lemma {:induction false} TotalsCountQueries(queries: seq<Query>, rankings: seq<seq<string>>, d: nat -> real, key: Key)
    requires |rankings| == |queries| && Listed(queries)
    ensures Counts(Total(Scores(queries, rankings, d), key), queries, rankings, key)
  {
    hide One, Score, Acc.Plus, Asked, Found, Finds, DistinctConcepts, CountsUnder, Concerns;
    if queries == [] {
      NobodyAsked(key);
    } else {
      var n := |queries| - 1;
      var q, scores := queries[n], Scores(queries[..n], rankings[..n], d);
      TotalsCountQueries(queries[..n], rankings[..n], d, key);
      AskedOneMore(queries, key);
      FoundOneMore(queries, rankings, key, 1);
      FoundOneMore(queries, rankings, key, 5);
      FoundOneMore(queries, rankings, key, 10);
      if Counted(q) {
        ScoredOneMore(q, rankings[n], d, Total(scores, key), key);
        TotalOneMore(scores, Score(q, rankings[n], d), key);
      } else {
        assert scores + [] == scores;
      }
      hide Total, Counted;
    }
  }

  lemma NobodyAsked(key: Key)
    ensures Asked([], key) == {} && forall k :: Found([], [], key, k) == {}
  {}

  /** For a validated set, under every key. */
  lemma MetricsCountQueries(set_: EvalSet, maxBytes: nat, rankings: seq<seq<string>>, d: nat -> real, key: Key)
    requires Sound(set_, maxBytes) && |rankings| == |set_.queries|
    ensures Counts(Total(Scores(set_.queries, rankings, d), key), set_.queries, rankings, key)
  {
    forall i | 0 <= i < |set_.queries| ensures DistinctConcepts(set_.queries[i].relevant) {
      assert QueryOk(set_.queries[i], set_.corpus, maxBytes);
    }
    hide Sound, Counts;
    TotalsCountQueries(set_.queries, rankings, d, key);
  }

  // ---------------------------------------------------------------------
  // Reciprocal ranks and gains
  // ---------------------------------------------------------------------

  /** A query adds one over the rank, counted from one, of its first hit, and its
      own nDCG. */
  lemma EachAddsItsReciprocal(queries: seq<Scored>, q: Scored, key: Key)
    requires Concerns(key, q.split, q.family)
    ensures var before, after := Total(queries, key), Total(queries + [q], key);
      && (q.first.None? ==> after.rr == before.rr)
      && (q.first.Some? ==> (after.rr - before.rr) * (q.first.value + 1) as real == 1.0)
      && after.ndcg - before.ndcg == q.ndcg
  {
    TotalOneMore(queries, q, key);
    hide Total;
    if q.first.Some? { Reciprocal(q.first.value); }
  }

  /** Grade 2 gains three times what grade 1 does, and grade 0 nothing. */
  lemma GainsAre()
    ensures Gain(0) == 0.0 && Gain(1) == 1.0 && Gain(2) == 3.0
  {
    assert Pow2(1) == 2.0 * Pow2(0);
  }

  function GainAt(grades: seq<nat>, i: nat): real {
    if i >= |grades| then 0.0
    else if grades[i] == 2 then 3.0 else if grades[i] == 1 then 1.0 else 0.0
  }

  lemma DiscountedTerm(grades: seq<nat>, d: nat -> real, i: nat)
    requires forall j | 0 <= j < |grades| :: grades[j] <= 2
    ensures Discounted(grades, d, i + 1) == Discounted(grades, d, i) + GainAt(grades, i) * d(i)
  {
    GainsAre();
    hide Gain;
  }

  /** Ten gains, each times its rank's discount. */
  function SumOfTen(g: seq<real>, d: nat -> real): real
    requires |g| == 10
  {
    g[0] * d(0) + g[1] * d(1) + g[2] * d(2) + g[3] * d(3) + g[4] * d(4)
    + g[5] * d(5) + g[6] * d(6) + g[7] * d(7) + g[8] * d(8) + g[9] * d(9)
  }

  /** The gains of the first ten grades. */
  function Gains(grades: seq<nat>): (g: seq<real>)
    ensures |g| == 10
  {
    seq(10, i requires 0 <= i < 10 => GainAt(grades, i))
  }

  lemma TenSteps(grades: seq<nat>, d: nat -> real, g: seq<real>)
    requires |g| == 10
    requires forall i: nat | i < 10 :: Discounted(grades, d, i + 1) == Discounted(grades, d, i) + g[i] * d(i)
    ensures Discounted(grades, d, DEPTH) == SumOfTen(g, d)
  {
    NothingYet(grades, d);
    hide Discounted;
    var three := Discounted(grades, d, 0 + 1 + 1 + 1);
    assert three == g[0] * d(0) + g[1] * d(1) + g[2] * d(2);
    var six := Discounted(grades, d, 3 + 1 + 1 + 1);
    assert six == three + g[3] * d(3) + g[4] * d(4) + g[5] * d(5);
    assert Discounted(grades, d, 6 + 1 + 1 + 1 + 1)
        == six + g[6] * d(6) + g[7] * d(7) + g[8] * d(8) + g[9] * d(9);
  }

  lemma NothingYet(grades: seq<nat>, d: nat -> real)
    ensures Discounted(grades, d, 0) == 0.0
  {}

  /** Discounted gain is the sum over the first ten ranks of 3, 1 or 0, for grade
      2, 1 or 0, times the discount. */
  lemma GainOfTen(grades: seq<nat>, d: nat -> real)
    requires forall j | 0 <= j < |grades| :: grades[j] <= 2
    ensures Discounted(grades, d, DEPTH) == SumOfTen(Gains(grades), d)
  {
    hide Discounted, SumOfTen, GainAt;
    var g := Gains(grades);
    forall i: nat | i < 10 ensures Discounted(grades, d, i + 1) == Discounted(grades, d, i) + g[i] * d(i) {
      DiscountedTerm(grades, d, i);
    }
    hide Gains;
    TenSteps(grades, d, g);
  }

  /** What the concept at a rank gains, by the query's list. */
  function RankGain(relevant: seq<Relevant>, ranked: seq<string>, i: nat): real {
    if i >= |ranked| then 0.0
    else if Relevant(ranked[i], 2) in relevant then 3.0
    else if Relevant(ranked[i], 1) in relevant then 1.0 else 0.0
  }

  function RankGains(relevant: seq<Relevant>, ranked: seq<string>): (g: seq<real>)
    ensures |g| == 10
  {
    seq(10, i requires 0 <= i < 10 => RankGain(relevant, ranked, i))
  }

  lemma GradeIs(relevant: seq<Relevant>, id: string)
    requires DistinctConcepts(relevant) && forall p | 0 <= p < |relevant| :: 1 <= relevant[p].grade <= 2
    ensures GradeOf(relevant, id) <= 2
    ensures GradeOf(relevant, id) == 2 <==> Relevant(id, 2) in relevant
    ensures GradeOf(relevant, id) == 1 <==> Relevant(id, 1) in relevant
  {
    GradeTwo(relevant, id);
    if GradeOf(relevant, id) > 0 {
      var p := GradeFromEntry(relevant, id);
    }
    if Relevant(id, 1) in relevant {
      var p :| 0 <= p < |relevant| && relevant[p] == Relevant(id, 1);
      GradeOfEntry(relevant, p);
    }
  }

  lemma RankedGains(relevant: seq<Relevant>, ranked: seq<string>)
    requires DistinctConcepts(relevant) && forall p | 0 <= p < |relevant| :: 1 <= relevant[p].grade <= 2
    ensures var grades := RankedGrades(ranked, relevant);
      && (forall j | 0 <= j < |grades| :: grades[j] <= 2)
      && Gains(grades) == RankGains(relevant, ranked)
  {
    hide GradeOf, DistinctConcepts;
    forall id ensures GradeOf(relevant, id) <= 2
                   && (GradeOf(relevant, id) == 2 <==> Relevant(id, 2) in relevant)
                   && (GradeOf(relevant, id) == 1 <==> Relevant(id, 1) in relevant) {
      GradeIs(relevant, id);
    }
  }

  lemma {:induction false} GradesAreOfEntries(relevant: seq<Relevant>)
    requires forall p | 0 <= p < |relevant| :: 1 <= relevant[p].grade <= 2
    ensures forall g | g in GradesOf(relevant) :: g <= 2
  {
    if relevant != [] { GradesAreOfEntries(relevant[..|relevant| - 1]); }
  }

  lemma IdealGrades(relevant: seq<Relevant>)
    requires forall p | 0 <= p < |relevant| :: 1 <= relevant[p].grade <= 2
    ensures forall j | 0 <= j < |Ideal(GradesOf(relevant))| :: Ideal(GradesOf(relevant))[j] <= 2
  {
    GradesAreOfEntries(relevant);
    IdealPermutes(GradesOf(relevant));
    var ideal := Ideal(GradesOf(relevant));
    hide GradesOf, Ideal;
    forall j | 0 <= j < |ideal| ensures ideal[j] <= 2 {
      assert ideal[j] in multiset(ideal);
      assert ideal[j] in GradesOf(relevant);
    }
  }

  lemma DcgIs(relevant: seq<Relevant>, ranked: seq<string>, d: nat -> real)
    requires DistinctConcepts(relevant) && forall p | 0 <= p < |relevant| :: 1 <= relevant[p].grade <= 2
    ensures Dcg(ranked, relevant, d) == SumOfTen(RankGains(relevant, ranked), d)
  {
    RankedGains(relevant, ranked);
    hide DistinctConcepts, RankedGrades, Discounted, Gains, RankGains, SumOfTen;
    GainOfTen(RankedGrades(ranked, relevant), d);
  }

  lemma IdealDcgIs(relevant: seq<Relevant>, d: nat -> real)
    requires forall p | 0 <= p < |relevant| :: 1 <= relevant[p].grade <= 2
    ensures IdealDcg(relevant, d) == SumOfTen(Gains(Ideal(GradesOf(relevant))), d)
  {
    IdealGrades(relevant);
    hide GradesOf, Ideal, Discounted, Gains, SumOfTen;
    GainOfTen(Ideal(GradesOf(relevant)), d);
  }

  /** nDCG is what the first ten ranked concepts gain by the query's list, over
      what its grades gain in their ideal order. */
  lemma NdcgIsQuotient(set_: EvalSet, maxBytes: nat, q: Query, ranked: seq<string>, d: nat -> real)
    requires Sound(set_, maxBytes) && q in set_.queries && q.kind == "answerable" && Discounting(d)
    ensures Ndcg(ranked, q.relevant, d) * SumOfTen(Gains(Ideal(GradesOf(q.relevant))), d)
         == SumOfTen(RankGains(q.relevant, ranked), d)
  {
    hide Sound, DistinctConcepts, GradesOf, Ideal, Gains, RankGains, SumOfTen, Dcg, IdealDcg;
    NdcgInUnitInterval(set_, maxBytes, q, [], d);
    RelevantOfSound(set_, maxBytes, q);
    DcgIs(q.relevant, ranked, d);
    IdealDcgIs(q.relevant, d);
    TimesIdeal(Dcg(ranked, q.relevant, d), IdealDcg(q.relevant, d));
  }

  lemma TimesIdeal(dcg: real, ideal: real)
    requires ideal > 0.0
    ensures dcg / ideal * ideal == dcg
  {}

  lemma RelevantOfSound(set_: EvalSet, maxBytes: nat, q: Query)
    requires Sound(set_, maxBytes) && q in set_.queries
    ensures DistinctConcepts(q.relevant) && forall p | 0 <= p < |q.relevant| :: 1 <= q.relevant[p].grade <= 2
  {
    var n :| 0 <= n < |set_.queries| && set_.queries[n] == q;
    assert QueryOk(set_.queries[n], set_.corpus, maxBytes);
  }

  // ---------------------------------------------------------------------
  // A recall run's buckets
  // ---------------------------------------------------------------------

  predicate IsAskedIn(q: Query, key: Bucket) {
    && q.review == None && q.kind != "no_answer"
    && q.split == key.split && (key.OfFamily? ==> q.family == key.family)
  }

  function AskedIn(queries: seq<Query>, key: Bucket): set<int> {
    set i | 0 <= i < |queries| && IsAskedIn(queries[i], key)
  }

  function FoundIn(queries: seq<Query>, rankings: seq<seq<string>>, key: Bucket, k: nat): set<int>
    requires |rankings| == |queries|
  {
    set i | i in AskedIn(queries, key) && Finds(queries[i], rankings[i], k)
  }

  ghost predicate CountsIn(a: Acc, queries: seq<Query>, rankings: seq<seq<string>>, key: Bucket)
    requires |rankings| == |queries|
  {
    && a.n == |AskedIn(queries, key)|
    && a.hit1 == |FoundIn(queries, rankings, key, 1)|
    && a.hit5 == |FoundIn(queries, rankings, key, 5)|
    && a.hit10 == |FoundIn(queries, rankings, key, 10)|
  }

  /** The scored queries before and with the last one. */
  lemma FoundInOneMore(queries: seq<Query>, rankings: seq<seq<string>>, key: Bucket, k: nat)
    requires queries != [] && |rankings| == |queries|
    ensures var n := |queries| - 1;
      && |AskedIn(queries, key)| == |AskedIn(queries[..n], key)| + (if IsAskedIn(queries[n], key) then 1 else 0)
      && |FoundIn(queries, rankings, key, k)| == |FoundIn(queries[..n], rankings[..n], key, k)|
           + if IsAskedIn(queries[n], key) && Finds(queries[n], rankings[n], k) then 1 else 0
  {
    hide Finds, IsAskedIn;
    var n := |queries| - 1;
    OneMore(AskedIn(queries[..n], key), AskedIn(queries, key), n);
    OneMore(FoundIn(queries[..n], rankings[..n], key, k), FoundIn(queries, rankings, key, k), n);
  }

  lemma ScoredInOneMore(q: Query, ranked: seq<string>, d: nat -> real, key: Bucket)
    ensures InBucket(Score(q, ranked, d), key)
       <==> q.split == key.split && (key.OfFamily? ==> q.family == key.family)
  {}

  lemma {:induction false} BucketsCountQueries(queries: seq<Query>, rankings: seq<seq<string>>, d: nat -> real,
                                               key: Bucket)
    requires |rankings| == |queries| && Listed(queries)
    ensures CountsIn(BucketTotal(Scores(queries, rankings, d), key), queries, rankings, key)
  {
    hide One, Score, Acc.Plus, AskedIn, FoundIn, Finds, DistinctConcepts, InBucket, BucketTotal;
    if queries == [] {
      NobodyAskedIn(key);
    } else {
      var n := |queries| - 1;
      var q, scores := queries[n], Scores(queries[..n], rankings[..n], d);
      BucketsCountQueries(queries[..n], rankings[..n], d, key);
      FoundInOneMore(queries, rankings, key, 1);
      FoundInOneMore(queries, rankings, key, 5);
      FoundInOneMore(queries, rankings, key, 10);
      if Counted(q) {
        ScoredInOneMore(q, rankings[n], d, key);
        ScoredOneMore(q, rankings[n], d, BucketTotal(scores, key), All);
        BucketOneMore(scores, Score(q, rankings[n], d), key);
      } else {
        assert scores + [] == scores;
      }
      hide Counted;
    }
  }

  lemma NobodyAskedIn(key: Bucket)
    ensures AskedIn([], key) == {} && forall k :: FoundIn([], [], key, k) == {}
    ensures BucketTotal([], key) == EMPTY
  {
    NoScores();
  }

  /** For the queries a recall run chooses from a validated set, in every bucket. */
  lemma RecallCountsQueries(set_: EvalSet, maxBytes: nat, heldOut: bool, rankings: seq<seq<string>>,
                            d: nat -> real, key: Bucket)
    requires Sound(set_, maxBytes) && |rankings| == |Chosen(set_.queries, heldOut)|
    ensures var queries := Chosen(set_.queries, heldOut);
      CountsIn(BucketTotal(Scores(queries, rankings, d), key), queries, rankings, key)
  {
    var queries := Chosen(set_.queries, heldOut);
    ChosenAre(set_.queries, heldOut);
    forall i | 0 <= i < |queries| ensures DistinctConcepts(queries[i].relevant) {
      assert queries[i] in queries;
      var n :| 0 <= n < |set_.queries| && set_.queries[n] == queries[i];
      assert QueryOk(set_.queries[n], set_.corpus, maxBytes);
    }
    hide Sound, CountsIn, Chosen, BucketTotal, Scores;
    BucketsCountQueries(queries, rankings, d, key);
  }
}
