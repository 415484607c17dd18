/** The greedy replay of the same-content rule over ranked hits
    (evidence/issue-181/hitk_replay.py) and its closed form. */
module Replay {
  import opened Prelude

  datatype Hit = Hit(rank: int, nodeId: string, content: string)

  /** What a hit is compared by; a redacted one is never equal to anything. */
  function Key(h: Hit, full: map<string, string>, normalized: string -> string): Option<string> {
    if "[REDACTED" <= h.content then None
    else Some(normalized(if h.nodeId in full then full[h.nodeId] else h.content))
  }

  function Keys(hits: seq<Hit>, full: map<string, string>, normalized: string -> string): (keys: seq<Option<string>>)
    ensures |keys| == |hits|
  {
    seq(|hits|, i requires 0 <= i < |hits| => Key(hits[i], full, normalized))
  }

  // ---------------------------------------------------------------------
  // The closed form
  // ---------------------------------------------------------------------

  /** The first position with the key of position i. */
  function First(keys: seq<Option<string>>, i: nat): (first: nat)
    requires i < |keys|
    ensures first <= i && keys[first] == keys[i] && forall j | 0 <= j < first :: keys[j] != keys[i]
  {
    if i == 0 || keys[0] == keys[i] then 0 else 1 + First(keys[1..], i - 1)
  }

  /** A hit stays if it lies outside the window, is redacted or is the first
      with its text. */
  predicate Stays(keys: seq<Option<string>>, window: int, i: nat)
    requires i < |keys|
  {
    i >= window || keys[i].None? || First(keys, i) == i
  }

  /** The positions before `n` that stay, and those that do not, each with its twin. */
  function Stayers(keys: seq<Option<string>>, window: int, n: nat): (r: seq<nat>)
    requires n <= |keys|
    ensures |r| <= n && forall i | 0 <= i < |r| :: r[i] < n
  {
    if n == 0 then []
    else Stayers(keys, window, n - 1) + if Stays(keys, window, n - 1) then [n - 1] else []
  }

  function Leavers(keys: seq<Option<string>>, window: int, n: nat): (r: seq<(nat, nat)>)
    requires n <= |keys|
    ensures forall i | 0 <= i < |r| :: r[i].0 < n && r[i].1 < n
  {
    if n == 0 then []
    else Leavers(keys, window, n - 1)
         + if Stays(keys, window, n - 1) then [] else [(First(keys, n - 1), n - 1)]
  }

  /** How many hits are looked at: up to the k-th that stays, or all. */
  function Stop(keys: seq<Option<string>>, window: int, k: nat, from: nat): (stop: nat)
    requires from <= |keys|
    ensures from <= stop <= |keys|
    decreases |keys| - from
  {
    if from == |keys| || |Stayers(keys, window, from)| >= k then from else Stop(keys, window, k, from + 1)
  }

  lemma FirstIsFirst(keys: seq<Option<string>>, i: nat)
    requires i < |keys|
    ensures First(keys, First(keys, i)) == First(keys, i)
  {}

  lemma FirstIs(keys: seq<Option<string>>, p: nat, i: nat)
    requires p <= i < |keys| && keys[p] == keys[i] && First(keys, p) == p
    ensures First(keys, i) == p
  {
    hide First;
  }

  lemma {:induction false} StayersAre(keys: seq<Option<string>>, window: int, n: nat, i: nat)
    requires n <= |keys|
    ensures i in Stayers(keys, window, n) <==> i < n && Stays(keys, window, i)
  {
    hide Stays;
    if n > 0 {
      StayersAre(keys, window, n - 1, i);
    }
  }

  lemma {:induction false} LeaversAre(keys: seq<Option<string>>, window: int, n: nat, t: nat, i: nat)
    requires n <= |keys|
    ensures (t, i) in Leavers(keys, window, n) <==> i < n && !Stays(keys, window, i) && t == First(keys, i)
  {
    hide Stays, First;
    if n > 0 {
      LeaversAre(keys, window, n - 1, t, i);
    }
  }

  /** Each hit looked at stays or leaves, and not both; one that leaves has a
      twin before it that stays and has the same text. */
  lemma {:induction false} EachHitStaysOrLeaves(keys: seq<Option<string>>, window: int, n: nat, i: nat)
    requires i < n <= |keys|
    ensures i in Stayers(keys, window, n) <==> (First(keys, i), i) !in Leavers(keys, window, n)
    ensures forall t | (t, i) in Leavers(keys, window, n) ::
              && t < i < window && keys[t] == keys[i] && keys[i].Some?
              && t in Stayers(keys, window, n)
  {
    StayersAre(keys, window, n, i);
    LeaversAre(keys, window, n, First(keys, i), i);
    FirstIsFirst(keys, i);
    StayersAre(keys, window, n, First(keys, i));
    forall t | (t, i) in Leavers(keys, window, n)
      ensures t == First(keys, i)
    {
      LeaversAre(keys, window, n, t, i);
    }
  }

  /** No two stayers in the window have the same text. */
  lemma {:induction false} StayersDiffer(keys: seq<Option<string>>, window: int, n: nat, i: nat, j: nat)
    requires i < j < n <= |keys| && j < window && keys[j].Some?
    requires i in Stayers(keys, window, n) && j in Stayers(keys, window, n)
    ensures keys[i] != keys[j]
  {
    StayersAre(keys, window, n, i);
    StayersAre(keys, window, n, j);
  }

  lemma {:induction false} StayersGrow(keys: seq<Option<string>>, window: int, m: nat, n: nat)
    requires m <= n <= |keys|
    ensures Stayers(keys, window, m) <= Stayers(keys, window, n)
    decreases n - m
  {
    hide Stays;
    if m < n {
      StayersGrow(keys, window, m, n - 1);
    }
  }

  /** What is picked are the first k hits that stay, or all of them; and when
      there are fewer than k, every hit was looked at. */
  lemma {:induction false} PickedAreFirstStayers(keys: seq<Option<string>>, window: int, k: nat, from: nat)
    requires from <= |keys| && |Stayers(keys, window, from)| <= k
    ensures var all := Stayers(keys, window, |keys|);
         Stayers(keys, window, Stop(keys, window, k, from)) == all[..Min(k, |all|)]
    ensures |Stayers(keys, window, Stop(keys, window, k, from))| < k ==> Stop(keys, window, k, from) == |keys|
    decreases |keys| - from
  {
    hide Stays;
    if from == |keys| || |Stayers(keys, window, from)| >= k {
      StayersGrow(keys, window, from, |keys|);
    } else {
      PickedAreFirstStayers(keys, window, k, from + 1);
    }
  }

  // ---------------------------------------------------------------------
  // The loop
  // ---------------------------------------------------------------------

  function Ranks(hits: seq<Hit>, picked: seq<nat>): seq<int>
    requires forall i | 0 <= i < |picked| :: picked[i] < |hits|
  {
    seq(|picked|, j requires 0 <= j < |picked| => hits[picked[j]].rank)
  }

  /** A skip shows the kept rank, the skipped rank and whether the full text is known. */
  function Skips(hits: seq<Hit>, full: map<string, string>, pairs: seq<(nat, nat)>): seq<(int, int, bool)>
    requires forall i | 0 <= i < |pairs| :: pairs[i].0 < |hits| && pairs[i].1 < |hits|
  {
    seq(|pairs|, j requires 0 <= j < |pairs| =>
      (hits[pairs[j].0].rank, hits[pairs[j].1].rank, hits[pairs[j].1].nodeId in full))
  }

  // ---------------------------------------------------------------------
  // In terms of the hits and their texts
  // ---------------------------------------------------------------------

  /** The full text of a hit where it is known, and the published cut elsewhere. */
  function TextOf(h: Hit, full: map<string, string>): string {
    if h.nodeId in full then full[h.nodeId] else h.content
  }

  predicate Redacted(h: Hit) {
    "[REDACTED" <= h.content
  }

  /** Neither hit is redacted, and their normalized texts are equal. */
  predicate SameText(hits: seq<Hit>, full: map<string, string>, normalized: string -> string, i: nat, j: nat)
    requires i < |hits| && j < |hits|
  {
    && !Redacted(hits[i]) && !Redacted(hits[j])
    && normalized(TextOf(hits[i], full)) == normalized(TextOf(hits[j], full))
  }

  lemma KeysMeanTexts(hits: seq<Hit>, full: map<string, string>, normalized: string -> string, i: nat, j: nat)
    requires i < |hits| && j < |hits|
    ensures var keys := Keys(hits, full, normalized);
      && (keys[j].None? <==> Redacted(hits[j]))
      && (keys[j].Some? && keys[i] == keys[j] <==> SameText(hits, full, normalized, i, j))
  {}

  /** A hit is picked unless it lies in the window behind one with its text. */
  lemma PickedExactWhen(hits: seq<Hit>, full: map<string, string>, normalized: string -> string,
                        window: int, n: nat, j: nat)
    requires n <= |hits|
    ensures j in Stayers(Keys(hits, full, normalized), window, n) <==>
      j < n && !(j < window && exists i: nat | i < j :: SameText(hits, full, normalized, i, j))
  {
    var keys := Keys(hits, full, normalized);
    StayersAre(keys, window, n, j);
    hide Stayers, First, Keys, SameText, Redacted;
    if j < n {
      forall i: nat | i < |hits|
        ensures (keys[j].None? <==> Redacted(hits[j]))
             && (keys[j].Some? && keys[i] == keys[j] <==> SameText(hits, full, normalized, i, j))
      {
        KeysMeanTexts(hits, full, normalized, i, j);
      }
    }
  }

  /** A skip names the first hit with the skipped one's text, and is made for
      each hit in the window that has one before it. */
  lemma SkippedExactWhen(hits: seq<Hit>, full: map<string, string>, normalized: string -> string,
                         window: int, n: nat, t: nat, j: nat)
    requires n <= |hits|
    ensures (t, j) in Leavers(Keys(hits, full, normalized), window, n) <==>
      && t < j < n && j < window && SameText(hits, full, normalized, t, j)
      && (forall i: nat | i < t :: !SameText(hits, full, normalized, i, j))
  {
    var keys := Keys(hits, full, normalized);
    LeaversAre(keys, window, n, t, j);
    hide Leavers, First, Keys, SameText, Redacted;
    if j < n {
      forall i: nat | i < |hits|
        ensures (keys[j].None? <==> Redacted(hits[j]))
             && (keys[j].Some? && keys[i] == keys[j] <==> SameText(hits, full, normalized, i, j))
      {
        KeysMeanTexts(hits, full, normalized, i, j);
      }
    }
  }

  lemma {:induction false} StayersIncrease(keys: seq<Option<string>>, window: int, n: nat)
    requires n <= |keys|
    ensures Increasing(Stayers(keys, window, n))
  {
    hide Stays;
    if n > 0 { StayersIncrease(keys, window, n - 1); }
  }

  /** A skip shows the rank of the hit that was kept, that of the one that was
      not, and whether the latter's full text is known. */
  lemma SkipsShowBoth(hits: seq<Hit>, full: map<string, string>, pairs: seq<(nat, nat)>, x: nat)
    requires forall i | 0 <= i < |pairs| :: pairs[i].0 < |hits| && pairs[i].1 < |hits|
    requires x < |pairs|
    ensures var (t, j) := pairs[x];
      |Skips(hits, full, pairs)| == |pairs|
      && Skips(hits, full, pairs)[x] == (hits[t].rank, hits[j].rank, hits[j].nodeId in full.Keys)
  {}

  /** The ranks returned are those of the picked hits, in their order. */
  lemma RanksAreOfPicked(hits: seq<Hit>, full: map<string, string>, normalized: string -> string, window: int, n: nat)
    requires n <= |hits|
    ensures var picked := Stayers(Keys(hits, full, normalized), window, n);
      var ranks := Ranks(hits, picked);
      && |ranks| == |picked| && Increasing(picked)
      && forall x | 0 <= x < |picked| :: ranks[x] == hits[picked[x]].rank
  {
    StayersIncrease(Keys(hits, full, normalized), window, n);
  }

  method ReplayHits(hits: seq<Hit>, full: map<string, string>, normalized: string -> string, k: nat)
      returns (ranks: seq<int>, skipped: seq<(int, int, bool)>)
    ensures var keys, window := Keys(hits, full, normalized), Min(20, 4 * k);
      var stop := Stop(keys, window, k, 0);
      && ranks == Ranks(hits, Stayers(keys, window, stop))
      && skipped == Skips(hits, full, Leavers(keys, window, stop))
  {
    var window := Min(20, 4 * k);
    ghost var keys := Keys(hits, full, normalized);
    hide *;
    RoundsNone(hits, full, keys, window);
    var picked: seq<nat> := [];
    skipped := [];
    var i := 0;
    while i < |hits| && |picked| < k
      invariant 0 <= i <= |hits|
      invariant Stop(keys, window, k, i) == Stop(keys, window, k, 0)
      invariant picked == Stayers(keys, window, i)
      invariant skipped == Skips(hits, full, Leavers(keys, window, i))
    {
      Round(hits, full, keys, window, k, i);
      var h := hits[i];
      var twin := FindTwin(hits, full, normalized, window, picked, i);
      if twin.Some? {
        skipped := skipped + [(hits[twin.value].rank, h.rank, h.nodeId in full)];
      } else {
        picked := picked + [i];
      }
      i := i + 1;
    }
    StopHere(keys, window, k, i);
    ranks := Ranks(hits, picked);
  }

  lemma RoundsNone(hits: seq<Hit>, full: map<string, string>, keys: seq<Option<string>>, window: int)
    ensures Stayers(keys, window, 0) == [] && Leavers(keys, window, 0) == []
    ensures Skips(hits, full, []) == []
  {}

  /** One round adds the hit to the stayers or a skip to the skips. */
  lemma Round(hits: seq<Hit>, full: map<string, string>, keys: seq<Option<string>>, window: int, k: nat, i: nat)
    requires i < |hits| == |keys| && |Stayers(keys, window, i)| < k
    ensures Stop(keys, window, k, i) == Stop(keys, window, k, i + 1)
    ensures Stayers(keys, window, i + 1)
         == if Stays(keys, window, i) then Stayers(keys, window, i) + [i] else Stayers(keys, window, i)
    ensures Skips(hits, full, Leavers(keys, window, i + 1))
         == Skips(hits, full, Leavers(keys, window, i))
            + if Stays(keys, window, i) then []
              else [(hits[First(keys, i)].rank, hits[i].rank, hits[i].nodeId in full)]
  {
    hide Stays, First;
  }

  lemma StopHere(keys: seq<Option<string>>, window: int, k: nat, i: nat)
    requires i <= |keys| && (i == |keys| || |Stayers(keys, window, i)| >= k)
    ensures Stop(keys, window, k, i) == i
  {}

  /** The first picked hit with the key of hit i, when that is to be compared. */
  method FindTwin(hits: seq<Hit>, full: map<string, string>, normalized: string -> string, window: int,
                  picked: seq<nat>, i: nat) returns (twin: Option<nat>)
    requires i < |hits| && picked == Stayers(Keys(hits, full, normalized), window, i)
    ensures var keys := Keys(hits, full, normalized);
      twin == if Stays(keys, window, i) then None else Some(First(keys, i))
  {
    ghost var keys := Keys(hits, full, normalized);
    hide First, Stayers;
    var key := Key(hits[i], full, normalized);
    twin := None;
    if i < window && key != None {
      var n := 0;
      while n < |picked|
        invariant 0 <= n <= |picked|
        invariant forall m | 0 <= m < n :: keys[picked[m]] != keys[i]
      {
        var p := picked[n];
        if Key(hits[p], full, normalized) == key {
          assert p in picked;
          StayersAre(keys, window, i, p);
          FirstIs(keys, p, i);
          return Some(p);
        }
        n := n + 1;
      }
      FirstIsFirst(keys, i);
      StayersAre(keys, window, i, First(keys, i));
    }
  }
}
