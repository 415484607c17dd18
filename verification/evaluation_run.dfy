/** The metrics of a whole run over a validated set: the loop over its queries
    in examples/eval_measure/main.rs, from rankings to accumulators. */
module EvaluationRun {
  import opened Prelude
  import opened EvalSchema
  import opened Ranking

  function Ids(corpus: seq<Concept>): (ids: seq<string>)
    ensures |ids| == |corpus|
  {
    seq(|corpus|, i requires 0 <= i < |corpus| => corpus[i].id)
  }

  /** The queries that are scored: not awaiting review, and answerable. */
  predicate Counted(q: Query) {
    q.review.None? && q.kind != "no_answer"
  }

  /** A ranking for each query, in which each concept of the corpus stands once. */
  ghost predicate RanksCorpus(set_: EvalSet, rankings: seq<seq<string>>) {
    && |rankings| == |set_.queries|
    && forall i | 0 <= i < |rankings| :: multiset(rankings[i]) == multiset(Ids(set_.corpus))
  }

  /** The scores in the order of the queries. */
  function Scores(queries: seq<Query>, rankings: seq<seq<string>>, d: nat -> real): seq<Scored>
    requires |rankings| == |queries|
  {
    if queries == [] then []
    else
      var n := |queries| - 1;
      Scores(queries[..n], rankings[..n], d)
      + if Counted(queries[n]) then [Score(queries[n], rankings[n], d)] else []
  }

  function CountedIn(queries: seq<Query>): nat {
    if queries == [] then 0
    else CountedIn(queries[..|queries| - 1]) + if Counted(queries[|queries| - 1]) then 1 else 0
  }

  lemma IdsDistinct(set_: EvalSet, maxBytes: nat)
    requires Sound(set_, maxBytes)
    ensures Distinct(Ids(set_.corpus))
  {}

  /** What the schema says of a scored query: it is answerable, and some concept
      of the corpus answers it. */
  lemma CountedQuery(set_: EvalSet, maxBytes: nat, q: Query) returns (p: nat)
    requires Sound(set_, maxBytes) && q in set_.queries && Counted(q)
    ensures q.kind == "answerable" && q.split in SPLITS && DistinctConcepts(q.relevant)
    ensures p < |q.relevant| && q.relevant[p].grade == 2 && q.relevant[p].concept in Ids(set_.corpus)
  {
    var n :| 0 <= n < |set_.queries| && set_.queries[n] == q;
    assert QueryOk(set_.queries[n], set_.corpus, maxBytes);
    hide TextOk, Blank, IsDate, Sound, ConceptOk, PairOk, SPLITS;
    assert KindOk(q) && RelevantOk(set_.corpus, q.relevant);
    p :| 0 <= p < |q.relevant| && q.relevant[p].grade == 2;
    assert Lists(set_.corpus, q.relevant[p].concept);
    var i :| 0 <= i < |set_.corpus| && set_.corpus[i].id == q.relevant[p].concept;
    assert Ids(set_.corpus)[i] == q.relevant[p].concept;
  }

  lemma {:induction false} GradeOfEntry(relevant: seq<Relevant>, p: nat)
    requires DistinctConcepts(relevant) && p < |relevant|
    ensures GradeOf(relevant, relevant[p].concept) == relevant[p].grade
  {
    if p < |relevant| - 1 {
      GradeOfEntry(relevant[..|relevant| - 1], p);
    }
  }

  /** A score over a ranking of the corpus: it lies in its range, and the best
      answer is found. */
  ghost predicate Fair(set_: EvalSet, s: Scored) {
    && 0.0 <= s.ndcg <= 1.0
    && s.split in SPLITS
    && s.first.Some? && s.first.value < |set_.corpus|
  }

  lemma ScoreIsFair(set_: EvalSet, maxBytes: nat, q: Query, ranked: seq<string>, d: nat -> real)
    requires Sound(set_, maxBytes) && q in set_.queries && Counted(q)
    requires Discounting(d) && multiset(ranked) == multiset(Ids(set_.corpus))
    ensures Fair(set_, Score(q, ranked, d))
  {
    IdsDistinct(set_, maxBytes);
    var p := CountedQuery(set_, maxBytes, q);
    hide Sound, Ndcg, IdealDcg, SPLITS, GradeOf, Distinct, Ids, DistinctConcepts;
    PermutedIsDistinct(ranked, Ids(set_.corpus));
    assert |ranked| == |multiset(ranked)| == |multiset(Ids(set_.corpus))| == |set_.corpus|;
    NdcgInUnitInterval(set_, maxBytes, q, ranked, d);
    GradeOfEntry(q.relevant, p);
    assert q.relevant[p].concept in ranked;
    assert FirstHit(ranked, q.relevant).Some?;
  }

  lemma {:induction false} ScoresAreFair(set_: EvalSet, maxBytes: nat, rankings: seq<seq<string>>,
                                         d: nat -> real, n: nat)
    requires Sound(set_, maxBytes) && RanksCorpus(set_, rankings) && Discounting(d) && n <= |set_.queries|
    ensures var scores := Scores(set_.queries[..n], rankings[..n], d);
      && |scores| == CountedIn(set_.queries[..n])
      && (forall i | 0 <= i < |scores| :: Fair(set_, scores[i]))
  {
    hide Sound, Fair, Score;
    if n > 0 {
      ScoresAreFair(set_, maxBytes, rankings, d, n - 1);
      var q := set_.queries[n - 1];
      assert set_.queries[..n][..n - 1] == set_.queries[..n - 1] && rankings[..n][..n - 1] == rankings[..n - 1];
      if Counted(q) {
        ScoreIsFair(set_, maxBytes, q, rankings[n - 1], d);
      }
    }
  }

  /** Over a validated set and any rankings of its corpus, every accumulator is
      coherent and has a positive mean reciprocal rank, the two splits add up to
      the whole, and the whole counts each scored query once. */
  lemma MetricsOfSoundSet(set_: EvalSet, maxBytes: nat, rankings: seq<seq<string>>, d: nat -> real)
    requires Sound(set_, maxBytes) && RanksCorpus(set_, rankings) && Discounting(d)
    ensures var scores := Scores(set_.queries, rankings, d);
      && (forall key :: Coherent(Total(scores, key)))
      && (forall key :: Total(scores, key).n > 0 ==> Total(scores, key).rr > 0.0)
      && Total(scores, All) == Total(scores, Split("dev")).Plus(Total(scores, Split("held_out")))
      && Total(scores, All).n == CountedIn(set_.queries)
  {
    hide Sound, Coherent, SPLITS, Score;
    ScoresAreFair(set_, maxBytes, rankings, d, |set_.queries|);
    assert set_.queries[..|set_.queries|] == set_.queries && rankings[..|set_.queries|] == rankings;
    var scores := Scores(set_.queries, rankings, d);
    hide Scores, Total, Acc.Plus;
    forall key ensures Coherent(Total(scores, key)) && (Total(scores, key).n > 0 ==> Total(scores, key).rr > 0.0) {
      TotalsCoherent(scores, key);
      RanksArePositive(scores, key);
    }
    SplitsAddUp(scores);
    AllCountsEach(scores);
  }

  lemma {:induction false} RanksArePositive(scores: seq<Scored>, key: Key)
    requires forall i | 0 <= i < |scores| :: scores[i].first.Some?
    ensures Total(scores, key).rr >= 0.0 && (Total(scores, key).n > 0 ==> Total(scores, key).rr > 0.0)
  {
    if scores != [] {
      RanksArePositive(scores[..|scores| - 1], key);
      Reciprocal(scores[|scores| - 1].first.value);
    }
  }

  lemma {:induction false} AllCountsEach(scores: seq<Scored>)
    ensures Total(scores, All).n == |scores|
  {
    if scores != [] { AllCountsEach(scores[..|scores| - 1]); }
  }

  /** The loop over the queries: each that counts is scored. */
  method ScoreAll(queries: seq<Query>, rankings: seq<seq<string>>, d: nat -> real) returns (scores: seq<Scored>)
    requires |rankings| == |queries|
    ensures scores == Scores(queries, rankings, d)
  {
    hide Score;
    scores := [];
    for n := 0 to |queries|
      invariant scores == Scores(queries[..n], rankings[..n], d)
    {
      assert queries[..n + 1][..n] == queries[..n] && rankings[..n + 1][..n] == rankings[..n];
      if queries[n].review.None? && queries[n].kind != "no_answer" {
        scores := scores + [Score(queries[n], rankings[n], d)];
      }
    }
    assert queries[..|queries|] == queries && rankings[..|queries|] == rankings;
  }

  /** The accumulators of a validated set. */
  method Evaluate(set_: EvalSet, ghost maxBytes: nat, rankings: seq<seq<string>>, d: nat -> real)
      returns (acc: map<Key, Acc>)
    requires Sound(set_, maxBytes) && RanksCorpus(set_, rankings) && Discounting(d)
    ensures var scores := Scores(set_.queries, rankings, d);
      && (forall key :: key in acc <==> exists i | 0 <= i < |scores| :: CountsUnder(scores[i], key))
      && (forall key | key in acc :: acc[key] == Total(scores, key) && Coherent(acc[key]) && acc[key].rr > 0.0)
      && (All in acc ==> acc[All].n == CountedIn(set_.queries))
  {
    MetricsOfSoundSet(set_, maxBytes, rankings, d);
    hide *;
    var scores := ScoreAll(set_.queries, rankings, d);
    acc := Accumulate(scores);
    forall key | key in acc ensures Total(scores, key).n > 0 {
      var i :| 0 <= i < |scores| && CountsUnder(scores[i], key);
      CountedOnce(scores, key, i);
    }
  }

  lemma {:induction false} CountedOnce(scores: seq<Scored>, key: Key, i: nat)
    requires i < |scores| && CountsUnder(scores[i], key)
    ensures Total(scores, key).n > 0
  {
    hide One;
    if i < |scores| - 1 { CountedOnce(scores[..|scores| - 1], key, i); }
    NCount(scores, key);
  }

  lemma NCount(scores: seq<Scored>, key: Key)
    requires scores != []
    ensures Total(scores, key).n
         == Total(scores[..|scores| - 1], key).n + (if CountsUnder(scores[|scores| - 1], key) then 1 else 0)
  {}
}
