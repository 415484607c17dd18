/** The metrics of a recall run over a validated set: the loop over its queries
    in examples/eval_fusion/main.rs, which sees the first hits only. */
module RecallRun {
  import opened Prelude
  import opened Reals
  import opened EvalSchema
  import opened Ranking
  import opened EvaluationRun

  const TOP_K := 10

  predicate InScope(q: Query, heldOut: bool) {
    q.review.None? && (q.split == "dev" || heldOut)
  }

  /** The queries of a run. */
  function Chosen(queries: seq<Query>, heldOut: bool): seq<Query> {
    if queries == [] then []
    else
      var last := queries[|queries| - 1];
      Chosen(queries[..|queries| - 1], heldOut) + if InScope(last, heldOut) then [last] else []
  }

  lemma {:induction false} ChosenAre(queries: seq<Query>, heldOut: bool)
    ensures forall q :: q in Chosen(queries, heldOut) <==>
              q in queries && q.review == None && (q.split == "dev" || heldOut)
    ensures Distinct(queries) ==> Distinct(Chosen(queries, heldOut))
  {
    if queries != [] {
      var init, last := queries[..|queries| - 1], queries[|queries| - 1];
      ChosenAre(init, heldOut);
      assert queries == init + [last];
      if Distinct(queries) { assert last !in init; }
    }
  }

  /** Each query's hits: distinct concepts, no more than were asked for. */
  ghost predicate Recalled(rankings: seq<seq<string>>) {
    forall i | 0 <= i < |rankings| :: Distinct(rankings[i]) && |rankings[i]| <= TOP_K
  }

  // ---------------------------------------------------------------------
  // Totals by split, and by split and family
  // ---------------------------------------------------------------------

  datatype Bucket = OfSplit(split: string) | OfFamily(split: string, family: string)

  predicate InBucket(s: Scored, key: Bucket) {
    s.split == key.split && (key.OfFamily? ==> s.family == key.family)
  }

  function InSplit(scores: seq<Scored>, split: string): seq<Scored> {
    if scores == [] then []
    else
      var last := scores[|scores| - 1];
      InSplit(scores[..|scores| - 1], split) + if last.split == split then [last] else []
  }

  /** What a bucket's accumulator holds after the queries. */
  function BucketTotal(scores: seq<Scored>, key: Bucket): Acc {
    match key
    case OfSplit(split) => Total(scores, Split(split))
    case OfFamily(split, family) => Total(InSplit(scores, split), Family(family))
  }

  lemma BucketOneMore(scores: seq<Scored>, q: Scored, key: Bucket)
    ensures BucketTotal(scores + [q], key)
         == if InBucket(q, key) then BucketTotal(scores, key).Plus(One(q)) else BucketTotal(scores, key)
  {
    hide Total, One, Acc.Plus;
    if key.OfSplit? {
      TotalOneMore(scores, q, Split(key.split));
    } else {
      assert (scores + [q])[..|scores|] == scores;
      TotalOneMore(InSplit(scores, key.split), q, Family(key.family));
      assert InSplit(scores, key.split) + [] == InSplit(scores, key.split);
    }
  }

  predicate UnderOne(q: Scored, key: Bucket, k: nat) {
    (k > 0 && key == OfSplit(q.split)) || (k > 1 && key == OfFamily(q.split, q.family))
  }

  /** One query added under its two keys. */
  method AddRecall(acc: map<Bucket, Acc>, q: Scored) returns (out: map<Bucket, Acc>)
    ensures forall key :: key in out <==> key in acc || InBucket(q, key)
    ensures forall key :: Read(out, key) == if InBucket(q, key) then Read(acc, key).Plus(One(q)) else Read(acc, key)
  {
    hide One;
    var keys := [OfSplit(q.split), OfFamily(q.split, q.family)];
    out := acc;
    for k := 0 to 2
      invariant forall key :: key in out <==> key in acc || UnderOne(q, key, k)
      invariant forall key :: Read(out, key)
                           == if UnderOne(q, key, k) then Read(acc, key).Plus(One(q)) else Read(acc, key)
    {
      out := AddUnder(out, keys[k], q);
    }
  }

  /** The accumulation loop over the queries. */
  method AccumulateRecall(scores: seq<Scored>) returns (acc: map<Bucket, Acc>)
    ensures forall key :: key in acc <==> exists i | 0 <= i < |scores| :: InBucket(scores[i], key)
    ensures forall key | key in acc :: acc[key] == BucketTotal(scores, key)
  {
    hide One, Total, Acc.Plus, InSplit;
    acc := map[];
    NoScores();
    for i := 0 to |scores|
      invariant forall key :: key in acc <==> exists j | 0 <= j < i :: InBucket(scores[j], key)
      invariant forall key :: Read(acc, key) == BucketTotal(scores[..i], key)
    {
      assert scores[..i + 1] == scores[..i] + [scores[i]];
      forall key ensures BucketTotal(scores[..i + 1], key)
                      == if InBucket(scores[i], key) then BucketTotal(scores[..i], key).Plus(One(scores[i]))
                         else BucketTotal(scores[..i], key) {
        BucketOneMore(scores[..i], scores[i], key);
      }
      hide BucketTotal;
      acc := AddRecall(acc, scores[i]);
    }
    assert scores[..|scores|] == scores;
  }

  lemma NoScores()
    ensures forall key :: BucketTotal([], key) == EMPTY
  {}

  // ---------------------------------------------------------------------
  // How the buckets add up
  // ---------------------------------------------------------------------

  lemma {:induction false} InSplitTotal(scores: seq<Scored>, split: string)
    ensures Total(InSplit(scores, split), All) == Total(scores, Split(split))
  {
    hide One, Acc.Plus, Total;
    if scores == [] {
      TotalOfNone(All);
      TotalOfNone(Split(split));
    } else {
      var init, last := scores[..|scores| - 1], scores[|scores| - 1];
      InSplitTotal(init, split);
      assert scores == init + [last];
      TotalOneMore(init, last, Split(split));
      TotalOneMore(InSplit(init, split), last, All);
      assert InSplit(init, split) + [] == InSplit(init, split);
    }
  }

  function FamilySum(scores: seq<Scored>, families: seq<string>): Acc {
    if families == [] then EMPTY
    else
      var n := |families| - 1;
      FamilySum(scores, families[..n]).Plus(Total(scores, Family(families[n])))
  }

  lemma {:induction false} FamilySumOneMore(scores: seq<Scored>, q: Scored, families: seq<string>)
    requires Distinct(families)
    ensures FamilySum(scores + [q], families)
         == if q.family in families then FamilySum(scores, families).Plus(One(q)) else FamilySum(scores, families)
  {
    hide Total, One, Acc.Plus;
    if families != [] {
      var n := |families| - 1;
      var init, last := families[..n], families[n];
      FamilySumOneMore(scores, q, init);
      assert families == init + [last];
      TotalOneMore(scores, q, Family(last));
      PlusSwaps(FamilySum(scores, init), One(q), Total(scores, Family(last)));
      PlusSwaps(FamilySum(scores, init), Total(scores, Family(last)), One(q));
    }
  }

  lemma {:induction false} FamilySumOfNone(families: seq<string>)
    ensures FamilySum([], families) == EMPTY
  {
    hide Total, Acc.Plus;
    if families != [] {
      FamilySumOfNone(families[..|families| - 1]);
      TotalOfNone(Family(families[|families| - 1]));
      PlusEmpty(EMPTY);
    }
  }

  /** Distinct families that cover the queries add up to the overall numbers. */
  lemma {:induction false} FamiliesAddUp(scores: seq<Scored>, families: seq<string>)
    requires Distinct(families) && forall i | 0 <= i < |scores| :: scores[i].family in families
    ensures FamilySum(scores, families) == Total(scores, All)
  {
    hide Total, One, Acc.Plus, FamilySum;
    if scores == [] {
      FamilySumOfNone(families);
      TotalOfNone(All);
    } else {
      var init, last := scores[..|scores| - 1], scores[|scores| - 1];
      assert scores == init + [last];
      FamiliesAddUp(init, families);
      FamilySumOneMore(init, last, families);
      TotalOneMore(init, last, All);
    }
  }

  lemma {:induction false} InSplitAre(scores: seq<Scored>, split: string)
    ensures forall s :: s in InSplit(scores, split) <==> s in scores && s.split == split
  {
    if scores != [] {
      InSplitAre(scores[..|scores| - 1], split);
      assert scores == scores[..|scores| - 1] + [scores[|scores| - 1]];
    }
  }

  lemma {:induction false} NoneInSplit(scores: seq<Scored>, split: string)
    requires forall i | 0 <= i < |scores| :: scores[i].split != split
    ensures Total(scores, Split(split)) == EMPTY
  {
    if scores != [] {
      NoneInSplit(scores[..|scores| - 1], split);
    }
  }

  // ---------------------------------------------------------------------
  // The whole run
  // ---------------------------------------------------------------------

  /** A score over distinct hits, no more than were asked for. */
  ghost predicate FairRecall(s: Scored) {
    && 0.0 <= s.ndcg <= 1.0
    && s.split in SPLITS && s.family in ANSWERABLE_FAMILIES
    && (s.first.Some? ==> s.first.value < TOP_K)
  }

  lemma RecallIsFair(set_: EvalSet, maxBytes: nat, q: Query, ranked: seq<string>, d: nat -> real)
    requires Sound(set_, maxBytes) && q in set_.queries && Counted(q)
    requires Discounting(d) && Distinct(ranked) && |ranked| <= TOP_K
    ensures FairRecall(Score(q, ranked, d))
  {
    FamilyOf(set_, maxBytes, q);
    NdcgInUnitInterval(set_, maxBytes, q, ranked, d);
    hide Ndcg, Sound, SPLITS, ANSWERABLE_FAMILIES, Distinct;
  }

  lemma FamilyOf(set_: EvalSet, maxBytes: nat, q: Query)
    requires Sound(set_, maxBytes) && q in set_.queries && Counted(q)
    ensures q.kind == "answerable" && q.split in SPLITS && q.family in ANSWERABLE_FAMILIES
  {
    var n :| 0 <= n < |set_.queries| && set_.queries[n] == q;
    assert QueryOk(set_.queries[n], set_.corpus, maxBytes);
    hide TextOk, Blank, IsDate, Sound, ConceptOk, PairOk, SPLITS, ANSWERABLE_FAMILIES, NO_ANSWER_FAMILIES;
    assert KindOk(q);
  }

  /** The scores of some first queries. */
  lemma {:induction false} RecallsAreFair(set_: EvalSet, maxBytes: nat, queries: seq<Query>,
                                          rankings: seq<seq<string>>, d: nat -> real, heldOut: bool)
    requires Sound(set_, maxBytes) && Discounting(d) && Recalled(rankings) && |rankings| == |queries|
    requires forall i | 0 <= i < |queries| :: queries[i] in set_.queries && InScope(queries[i], heldOut)
    ensures var scores := Scores(queries, rankings, d);
      && |scores| == CountedIn(queries)
      && forall i | 0 <= i < |scores| :: FairRecall(scores[i]) && (scores[i].split == "dev" || heldOut)
  {
    hide Sound, FairRecall, Discounting;
    if queries != [] {
      var n := |queries| - 1;
      RecallsAreFair(set_, maxBytes, queries[..n], rankings[..n], d, heldOut);
      if Counted(queries[n]) {
        RecallIsFair(set_, maxBytes, queries[n], rankings[n], d);
      }
      hide Distinct, FirstHit, Ndcg;
    }
  }

  /** Hits among the first ten are all there are. */
  ghost predicate Shallow(a: Acc) {
    a.rr <= a.hit10 as real <= 10.0 * a.rr
  }

  lemma ReciprocalAtDepth(r: nat)
    requires r < TOP_K
    ensures 0.0 < 1.0 / (r + 1) as real <= 1.0 <= 10.0 * (1.0 / (r + 1) as real)
  {
    var n := (r + 1) as real;
    Reciprocal(r);
    QuotientAtLeast(0.1, 1.0, n);
  }

  lemma {:induction false} TotalsShallow(scores: seq<Scored>, key: Key)
    requires forall i | 0 <= i < |scores| :: scores[i].first.Some? ==> scores[i].first.value < TOP_K
    ensures Shallow(Total(scores, key))
  {
    if scores != [] {
      TotalsShallow(scores[..|scores| - 1], key);
      var last := scores[|scores| - 1];
      if last.first.Some? { ReciprocalAtDepth(last.first.value); }
    }
  }

  lemma BucketIsFair(scores: seq<Scored>, key: Bucket)
    requires forall i | 0 <= i < |scores| :: FairRecall(scores[i])
    ensures Coherent(BucketTotal(scores, key)) && Shallow(BucketTotal(scores, key))
  {
    hide Total, Coherent, Shallow, InSplit, SPLITS, ANSWERABLE_FAMILIES;
    if key.OfSplit? {
      TotalsCoherent(scores, Split(key.split));
      TotalsShallow(scores, Split(key.split));
    } else {
      InSplitAre(scores, key.split);
      var part := InSplit(scores, key.split);
      assert forall i | 0 <= i < |part| :: part[i] in scores;
      TotalsCoherent(part, Family(key.family));
      TotalsShallow(part, Family(key.family));
    }
  }

  lemma SplitOfFamilies(scores: seq<Scored>, split: string)
    requires forall i | 0 <= i < |scores| :: FairRecall(scores[i])
    ensures FamilySum(InSplit(scores, split), ANSWERABLE_FAMILIES) == BucketTotal(scores, OfSplit(split))
  {
    FamiliesDiffer();
    hide Total, FamilySum, InSplit, SPLITS, ANSWERABLE_FAMILIES, Distinct;
    InSplitAre(scores, split);
    var part := InSplit(scores, split);
    assert forall i | 0 <= i < |part| :: part[i] in scores;
    FamiliesAddUp(part, ANSWERABLE_FAMILIES);
    InSplitTotal(scores, split);
  }

  lemma FamiliesDiffer()
    ensures Distinct(ANSWERABLE_FAMILIES)
  {}

  /** Over a validated set and any distinct hits, every accumulator is coherent
      and shallow, the families of a split add up to it, the splits count each
      scored query once, and nothing is counted as held out that was not to be. */
  lemma MetricsOfRecall(set_: EvalSet, maxBytes: nat, heldOut: bool, rankings: seq<seq<string>>, d: nat -> real)
    requires Sound(set_, maxBytes) && Discounting(d) && Recalled(rankings)
    requires |rankings| == |Chosen(set_.queries, heldOut)|
    ensures var scores := Scores(Chosen(set_.queries, heldOut), rankings, d);
      && (forall key :: Coherent(BucketTotal(scores, key)) && Shallow(BucketTotal(scores, key)))
      && (forall split :: FamilySum(InSplit(scores, split), ANSWERABLE_FAMILIES) == BucketTotal(scores, OfSplit(split)))
      && BucketTotal(scores, OfSplit("dev")).n + BucketTotal(scores, OfSplit("held_out")).n
         == CountedIn(Chosen(set_.queries, heldOut))
      && (!heldOut ==> BucketTotal(scores, OfSplit("held_out")) == EMPTY)
  {
    var queries := Chosen(set_.queries, heldOut);
    ChosenAre(set_.queries, heldOut);
    assert forall i | 0 <= i < |queries| :: queries[i] in queries;
    RecallsAreFair(set_, maxBytes, queries, rankings, d, heldOut);
    hide *;
    BucketsOfFair(Scores(queries, rankings, d), heldOut);
  }

  lemma BucketsOfFair(scores: seq<Scored>, heldOut: bool)
    requires forall i | 0 <= i < |scores| :: FairRecall(scores[i]) && (scores[i].split == "dev" || heldOut)
    ensures forall key :: Coherent(BucketTotal(scores, key)) && Shallow(BucketTotal(scores, key))
    ensures forall split ::
              FamilySum(InSplit(scores, split), ANSWERABLE_FAMILIES) == BucketTotal(scores, OfSplit(split))
    ensures BucketTotal(scores, OfSplit("dev")).n + BucketTotal(scores, OfSplit("held_out")).n == |scores|
    ensures !heldOut ==> BucketTotal(scores, OfSplit("held_out")) == EMPTY
  {
    hide *;
    forall key ensures Coherent(BucketTotal(scores, key)) && Shallow(BucketTotal(scores, key)) {
      BucketIsFair(scores, key);
    }
    forall split ensures FamilySum(InSplit(scores, split), ANSWERABLE_FAMILIES)
                      == BucketTotal(scores, OfSplit(split)) {
      SplitOfFamilies(scores, split);
    }
    CountedBySplit(scores, heldOut);
  }

  lemma CountedBySplit(scores: seq<Scored>, heldOut: bool)
    requires forall i | 0 <= i < |scores| :: FairRecall(scores[i]) && (scores[i].split == "dev" || heldOut)
    ensures BucketTotal(scores, OfSplit("dev")).n + BucketTotal(scores, OfSplit("held_out")).n == |scores|
    ensures !heldOut ==> BucketTotal(scores, OfSplit("held_out")) == EMPTY
  {
    hide Total, SPLITS, ANSWERABLE_FAMILIES;
    SplitsAddUp(scores);
    AllCountsEach(scores);
    assert |"dev"| != |"held_out"|;
    if !heldOut { NoneInSplit(scores, "held_out"); }
  }

  /** The accumulators of a recall run over a validated set. */
  method EvaluateRecall(set_: EvalSet, ghost maxBytes: nat, heldOut: bool, rankings: seq<seq<string>>, d: nat -> real)
      returns (acc: map<Bucket, Acc>)
    requires Sound(set_, maxBytes) && Discounting(d) && Recalled(rankings)
    requires |rankings| == |Chosen(set_.queries, heldOut)|
    ensures var scores := Scores(Chosen(set_.queries, heldOut), rankings, d);
      && (forall key :: key in acc <==> exists i | 0 <= i < |scores| :: InBucket(scores[i], key))
      && (forall key | key in acc :: acc[key] == BucketTotal(scores, key) && Coherent(acc[key]) && Shallow(acc[key]))
    ensures OfSplit("held_out") in acc ==> heldOut
  {
    MetricsOfRecall(set_, maxBytes, heldOut, rankings, d);
    hide *;
    var scores := ScoreAll(Chosen(set_.queries, heldOut), rankings, d);
    acc := AccumulateRecall(scores);
    forall i | 0 <= i < |scores| && InBucket(scores[i], OfSplit("held_out")) ensures heldOut {
      CountedInBucket(scores, "held_out", i);
    }
  }

  lemma CountedInBucket(scores: seq<Scored>, split: string, i: nat)
    requires i < |scores| && InBucket(scores[i], OfSplit(split))
    ensures BucketTotal(scores, OfSplit(split)) != EMPTY
  {
    CountedOnce(scores, Split(split), i);
    hide Total;
  }
}
