/** What the ledger promises, over every reachable state of every run. */
module LedgerTheorems {
  import opened Prelude
  import opened CallLedger
  import opened LedgerInvariant

  // ---------------------------------------------------------------------
  // Conservation, and one fate for each append
  // ---------------------------------------------------------------------

  /** Until a writer is abandoned, every finished append is written, dropped
      for one counted reason, in the writer's hands or in the channel; an
      append between its `try_send` and its count is one line ahead. */
  lemma Conservation(r: Run)
    requires Inv(r) && r.h.mark.None?
    ensures |r.h.calls| + |PendingAccepted(r.s)|
         == r.s.file.written + r.s.file.channelFull + r.s.file.writeFailed + |Held(r.s.phase)| + |r.s.channel|
  {
    AcceptedIn(r, WholeFile);
    CallsByClass(r.h.calls);
    CountAll(LinesIn(r.h.calls, IsAccepted));
    CountAll(LinesIn(r.h.calls, IsFull));
    CountAll(Drops(r.h.calls));
    CountAll(Uncounted(r.s));
    CountAll(PendingAccepted(r.s));
  }

  lemma {:induction false} CallsByClass(calls: seq<Call>)
    ensures |calls| == |LinesIn(calls, IsAccepted)| + |LinesIn(calls, IsFull)| + |Drops(calls)|
  {
    if calls != [] { CallsByClass(calls[..|calls| - 1]); }
  }

  datatype Fate = Written | SinkFailed | InBatch | InChannel | Refused(outcome: Outcome)

  /** How many appends the channel accepted before call `i`. */
  function Rank(calls: seq<Call>, i: nat): nat
    requires i <= |calls|
  {
    |LinesIn(calls[..i], IsAccepted)|
  }

  function FateOf(r: Run, i: nat): Fate
    requires i < |r.h.calls|
  {
    var k := Rank(r.h.calls, i);
    if !r.h.calls[i].outcome.Accepted? then Refused(r.h.calls[i].outcome)
    else if k < |r.h.settled| then (if r.h.settled[k].ok then Written else SinkFailed)
    else if k < |r.h.settled| + |Held(r.s.phase)| then InBatch
    else InChannel
  }

  /** The place a fate names holds the line of exactly that call. */
  lemma EachAppendHasOneFate(r: Run, i: nat)
    requires Inv(r) && i < |r.h.calls|
    ensures var k, line := Rank(r.h.calls, i), r.h.calls[i].line;
            match FateOf(r, i)
            case Written => r.h.settled[k] == Settled(line, true)
            case SinkFailed => r.h.settled[k] == Settled(line, false)
            case InBatch => Held(r.s.phase)[k - |r.h.settled|] == line
            case InChannel =>
              var c := k - |r.h.settled| - |Held(r.s.phase)|;
              c < |r.s.channel| && r.s.channel[c] == line
            case Refused(outcome) => outcome == r.h.calls[i].outcome && outcome != Accepted
  {
    if r.h.calls[i].outcome.Accepted? {
      RankedLine(r.h.calls, i);
      var k := Rank(r.h.calls, i);
      assert AcceptedLines(r)[k] == r.h.calls[i].line;
      assert (LinesOf(r.h.settled) + Uncounted(r.s))[k] == r.h.calls[i].line;
    }
  }

  /** No two accepted calls share a place, and later calls lie further on. */
  lemma {:induction false} RanksIncrease(calls: seq<Call>, i: nat, j: nat)
    requires i < j <= |calls| && calls[i].outcome.Accepted?
    ensures Rank(calls, i) < Rank(calls, j)
    decreases j
  {
    assert calls[..j][..j - 1] == calls[..j - 1];
    if i < j - 1 { RanksIncrease(calls, i, j - 1); }
  }

  lemma {:induction false} RankedLine(calls: seq<Call>, i: nat)
    requires i < |calls| && calls[i].outcome.Accepted?
    ensures Rank(calls, i) < |LinesIn(calls, IsAccepted)|
    ensures LinesIn(calls, IsAccepted)[Rank(calls, i)] == calls[i].line
  {
    var init := calls[..|calls| - 1];
    if i < |init| {
      assert init[..i] == calls[..i];
      RankedLine(init, i);
    } else {
      assert calls[..i] == init;
    }
  }

  // ---------------------------------------------------------------------
  // The queue gauge
  // ---------------------------------------------------------------------

  /** The counters a handle reads: the file's, or its session's. */
  function CountersOf(s: State, v: View): Counters
    requires !v.Unscoped? && (v.OfSession? ==> v.session in s.scopes)
  {
    if v.WholeFile? then s.file else s.scopes[v.session]
  }

  predicate Readable(s: State, v: View) {
    !v.Unscoped? && (v.OfSession? ==> v.session in s.scopes)
  }

  /** `queued()` before any abandon: the lines accepted and not counted, less
      those the count of a running append is behind on and less every drop that
      was counted as failed without being accepted, and never below zero. */
  lemma QueuedMeaning(r: Run, v: View)
    requires Inv(r) && Readable(r.s, v) && r.h.mark.None?
    ensures var uncounted, drops := CountLines(Uncounted(r.s), v), CountLines(Drops(r.h.calls), v);
            && CountersOf(r.s, v).Queued() == Monus(uncounted, CountLines(PendingAccepted(r.s), v) + drops)
            && (r.s.pending.None? ==>
                  (CountersOf(r.s, v).Queued() == uncounted <==> drops == 0 || uncounted == 0))
  {
    hide LinesIn, LinesWith, CountLines, Scoped, OnDisk, Warned;
    NoLines(v);
    QueuedIsUncounted(r, v);
    assert CountersOf(r.s, v) == Tally(r.h, v);
  }

  /** The bound `queued()` documents, for the file and every session: the lines
      of that view in the channel and the writer's hands, so at most the channel
      plus what the writer holds. */
  lemma QueuedBounded(r: Run, v: View)
    requires Inv(r) && Readable(r.s, v)
    ensures CountersOf(r.s, v).Queued() <= CountLines(Uncounted(r.s), v) <= CHANNEL_CAPACITY + |Held(r.s.phase)|
  {
    hide LinesIn, LinesWith, CountLines, Scoped, OnDisk, Warned;
    QueuedIsUncounted(r, v);
    CountAtMost(Uncounted(r.s), v);
    assert CountersOf(r.s, v) == Tally(r.h, v);
  }

  lemma {:induction false} CountAtMost(lines: seq<Line>, v: View)
    ensures CountLines(lines, v) <= |lines|
  {
    if lines != [] { CountAtMost(lines[..|lines| - 1], v); }
  }

  // ---------------------------------------------------------------------
  // Abandoning the writer
  // ---------------------------------------------------------------------

  /** The abandon step counts every line the writer still held exactly when
      nothing was dropped unaccepted in that view (or nothing is held), and it
      brings the totals level exactly when those drops do not outnumber them. */
  lemma AbandonIsExactWhen(r: Run, v: View)
    requires Inv(r) && Enabled(r.s, Abandon) && Readable(r.s, v)
    ensures var left, drops := CountLines(Uncounted(r.s), v), CountLines(Drops(r.h.calls), v);
            var before, after := CountersOf(r.s, v), CountersOf(Next(r.s, Abandon), v);
            && (after.writeFailed - before.writeFailed == left <==> drops == 0 || left == 0)
            && (after.accepted == after.written + after.writeFailed <==> drops <= left)
            && after.Queued() == 0
  {
    QueuedIsUncounted(r, v);
    AcceptedIn(r, v);
    assert CountersOf(r.s, v) == Tally(r.h, v);
  }

  function Overshoot(c: Counters): int {
    c.written + c.writeFailed - c.accepted
  }

  /** After an abandon, whatever happens next: the totals run over what was
      accepted by the lines the abandoned writer has settled since, and by the
      drops that the abandon step did not set off against lines. */
  lemma OvershootAfterAbandon(r: Run, v: View)
    requires Inv(r) && Readable(r.s, v) && r.h.mark.Some?
    ensures var left, drops := CountLines(r.h.mark.value.left, v), CountLines(r.h.mark.value.drops, v);
      Overshoot(CountersOf(r.s, v))
      == CountLines(LinesOf(r.h.settled[r.h.mark.value.counted..]), v)
         + CountLines(Drops(r.h.calls), v) - Min(left, drops)
  {
    assert CountersOf(r.s, v) == Tally(r.h, v);
    assert PendingAccepted(r.s) == [];
    NoLines(v);
    hide CountLines, LinesIn, LinesWith, LinesOf, Scoped, Accounts, OnDisk, Warned, BatchShape;
    AcceptedIn(r, v);
    LeftSinceMark(r, v);
  }

  /** The lines left at the abandon step are those settled since and those
      still uncounted. */
  lemma LeftSinceMark(r: Run, v: View)
    requires Inv(r) && r.h.mark.Some?
    ensures CountLines(r.h.mark.value.left, v)
         == CountLines(LinesOf(r.h.settled[r.h.mark.value.counted..]), v) + CountLines(Uncounted(r.s), v)
  {
    var m := r.h.mark.value;
    var since := LinesOf(r.h.settled[m.counted..]);
    assert AcceptedLines(r)[m.counted..] == m.left && LinesOf(r.h.settled) + Uncounted(r.s) == AcceptedLines(r);
    hide CountLines, LinesIn, LinesWith, Inv, AcceptedLines;
    assert LinesOf(r.h.settled)[m.counted..] == since;
    hide LinesOf;
    DropFromLeft(LinesOf(r.h.settled), Uncounted(r.s), m.counted);
    CountConcat(since, Uncounted(r.s), v);
  }

  lemma DropFromLeft<T>(a: seq<T>, b: seq<T>, n: nat)
    requires n <= |a|
    ensures (a + b)[n..] == a[n..] + b
  {}

  /** A shutdown that joins a finished writer leaves no line unaccounted; one
      that joins a panicked writer leaves exactly the lines it took along. */
  lemma JoinedWriterAccounts(r: Run, v: View)
    requires Inv(r) && Enabled(r.s, Join) && Readable(r.s, v)
    ensures r.h.mark.None?
    ensures Overshoot(CountersOf(r.s, v))
         == CountLines(Drops(r.h.calls), v) - CountLines(Held(r.s.phase), v)
    ensures r.s.phase.Finished? ==> Held(r.s.phase) == []
  {
    AcceptedIn(r, v);
    assert CountersOf(r.s, v) == Tally(r.h, v);
    assert Uncounted(r.s) == Held(r.s.phase);
  }

  // ---------------------------------------------------------------------
  // The file is a FIFO log
  // ---------------------------------------------------------------------

  /** The calls in the order they held the sender's lock, the running one last. */
  function AllCalls(r: Run): seq<Call> {
    r.h.calls + (if r.s.pending.Some? then [r.s.pending.value] else [])
  }

  /** The positions of the accepted calls. */
  function AcceptedAt(calls: seq<Call>): seq<nat> {
    if calls == [] then []
    else AcceptedAt(calls[..|calls| - 1])
         + (if calls[|calls| - 1].outcome.Accepted? then [|calls| - 1] else [])
  }

  lemma {:induction false} AcceptedAtCalls(calls: seq<Call>)
    ensures var at := AcceptedAt(calls);
            && |at| == |LinesIn(calls, IsAccepted)| && Increasing(at)
            && (forall i | 0 <= i < |at| ::
                  at[i] < |calls| && calls[at[i]] == Call(LinesIn(calls, IsAccepted)[i], Accepted))
  {
    if calls != [] {
      var init, last := calls[..|calls| - 1], calls[|calls| - 1];
      AcceptedAtCalls(init);
      LinesInAppend(init, last, IsAccepted);
      assert init + [last] == calls;
      assert AcceptedAt(calls) == AcceptedAt(init) + if last.outcome.Accepted? then [|init|] else [];
      hide AcceptedAt, LinesIn;
    }
  }

  function WrittenAt(settled: seq<Settled>): seq<nat> {
    if settled == [] then []
    else WrittenAt(settled[..|settled| - 1])
         + (if settled[|settled| - 1].ok then [|settled| - 1] else [])
  }

  lemma {:induction false} WrittenAtLines(settled: seq<Settled>)
    ensures var at := WrittenAt(settled);
            && |at| == |LinesWith(settled, true)| && Increasing(at)
            && (forall i | 0 <= i < |at| :: at[i] < |settled| && LinesWith(settled, true)[i] == settled[at[i]].line)
  {
    if settled != [] { WrittenAtLines(settled[..|settled| - 1]); }
  }

  /** For each line in the files, the accepted append it came from. */
  ghost predicate LandedFrom(r: Run, at: seq<nat>) {
    && |at| == |Landed(r)| && Increasing(at)
    && (forall i | 0 <= i < |at| ::
          at[i] < |AllCalls(r)| && AllCalls(r)[at[i]] == Call(Landed(r)[i], Accepted))
  }

  /** The lines in the files, oldest file first, come from distinct accepted
      appends and in their order; moving the file away only cuts the sequence,
      and each file holds its lines' bytes and nothing else. */
  lemma FilesAreAFifoLog(r: Run)
    requires Inv(r)
    ensures exists at: seq<nat> :: LandedFrom(r, at)
    ensures Flatten(r.h.pieces) == Landed(r) && |r.s.disk| == |r.h.pieces|
    ensures forall i | 0 <= i < |r.s.disk| :: r.s.disk[i] == BytesOf(r.h.pieces[i])
    ensures !r.s.phase.Settling? ==> r.s.file.written == |Landed(r)|
  {
    hide CountLines, BytesOf, LinesWith;
    CountAll(LinesWith(r.h.settled, true));
    var slots := LandedSlots(r);
    var calls := AllCalls(r);
    AcceptedAtCalls(calls);
    if r.s.pending.Some? {
      LinesInAppend(r.h.calls, r.s.pending.value, IsAccepted);
    } else {
      assert calls == r.h.calls;
    }
    assert LinesIn(calls, IsAccepted) == AcceptedLines(r);
    var at := seq(|slots|, i requires 0 <= i < |slots| => AcceptedAt(calls)[slots[i]]);
    assert LandedFrom(r, at);
  }

  /** The calls made through one handle, in program order. */
  function CallsBy(calls: seq<Call>, handle: nat): seq<Call> {
    if calls == [] then []
    else
      var last := calls[|calls| - 1];
      CallsBy(calls[..|calls| - 1], handle) + if last.line.handle == handle then [last] else []
  }

  /** How many calls the handle made before position `k`. */
  function OwnRank(calls: seq<Call>, handle: nat, k: nat): nat
    requires k <= |calls|
  {
    |CallsBy(calls[..k], handle)|
  }

  lemma {:induction false} OwnCall(calls: seq<Call>, k: nat)
    requires k < |calls|
    ensures var handle := calls[k].line.handle;
      && OwnRank(calls, handle, k) < |CallsBy(calls, handle)|
      && CallsBy(calls, handle)[OwnRank(calls, handle, k)] == calls[k]
  {
    var n := |calls| - 1;
    if k < n {
      OwnCall(calls[..n], k);
      assert calls[..n][..k] == calls[..k];
    }
  }

  lemma {:induction false} OwnRankGrows(calls: seq<Call>, k: nat, l: nat)
    requires k < l <= |calls|
    ensures OwnRank(calls, calls[k].line.handle, k) < OwnRank(calls, calls[k].line.handle, l)
    decreases l
  {
    assert calls[..l][..l - 1] == calls[..l - 1];
    if k < l - 1 { OwnRankGrows(calls, k, l - 1); }
  }

  /** Two lines of one handle lie in the files in the order in which the handle
      appended them, and come from two different appends of it. */
  lemma HandleKeepsOrder(r: Run, at: seq<nat>, i: nat, j: nat)
    requires LandedFrom(r, at) && i < j < |at| && Landed(r)[i].handle == Landed(r)[j].handle
    ensures var own := CallsBy(AllCalls(r), Landed(r)[i].handle);
      var a, b := OwnRank(AllCalls(r), Landed(r)[i].handle, at[i]), OwnRank(AllCalls(r), Landed(r)[i].handle, at[j]);
      && a < b < |own|
      && own[a] == Call(Landed(r)[i], Accepted) && own[b] == Call(Landed(r)[j], Accepted)
  {
    hide Landed, AllCalls, CallsBy;
    var calls := AllCalls(r);
    OwnCall(calls, at[i]);
    OwnCall(calls, at[j]);
    OwnRankGrows(calls, at[i], at[j]);
  }

  /** Where the landed lines lie among the accepted ones. */
  lemma LandedSlots(r: Run) returns (slots: seq<nat>)
    requires Inv(r)
    ensures |slots| == |Landed(r)| && Increasing(slots)
    ensures forall i | 0 <= i < |slots| :: slots[i] < |AcceptedLines(r)| && AcceptedLines(r)[slots[i]] == Landed(r)[i]
  {
    hide AcceptedLines, Uncounted, Scoped, Accounts, OnDisk, Warned, CountLines, LinesIn, LinesWith, BytesOf;
    slots := WrittenSlots(r);
    if r.s.phase.Settling? && r.s.phase.ok {
      BatchSlots(r);
      slots := ExtendSlots(AcceptedLines(r), LinesWith(r.h.settled, true), slots, |r.h.settled|, r.s.phase.batch);
    }
  }

  /** A selection of the first `n` elements, and all of a block after them. */
  lemma ExtendSlots(all: seq<Line>, chosen: seq<Line>, at: seq<nat>, n: nat, block: seq<Line>)
    returns (slots: seq<nat>)
    requires |at| == |chosen| && Increasing(at) && n + |block| <= |all|
    requires forall i | 0 <= i < |at| :: at[i] < n && all[at[i]] == chosen[i]
    requires forall i | 0 <= i < |block| :: all[n + i] == block[i]
    ensures |slots| == |chosen + block| && Increasing(slots)
    ensures forall i | 0 <= i < |slots| :: slots[i] < |all| && all[slots[i]] == (chosen + block)[i]
  {
    slots := at + SlotsFrom(n, |block|);
  }

  lemma WrittenSlots(r: Run) returns (slots: seq<nat>)
    requires Inv(r)
    ensures |slots| == |LinesWith(r.h.settled, true)| && Increasing(slots)
    ensures forall i | 0 <= i < |slots| ::
              && slots[i] < |r.h.settled| <= |AcceptedLines(r)|
              && AcceptedLines(r)[slots[i]] == LinesWith(r.h.settled, true)[i]
  {
    WrittenAtLines(r.h.settled);
    slots := WrittenAt(r.h.settled);
    assert AcceptedLines(r) == LinesOf(r.h.settled) + Uncounted(r.s);
  }

  lemma BatchSlots(r: Run)
    requires Inv(r) && r.s.phase.Settling?
    ensures |AcceptedLines(r)| >= |r.h.settled| + |r.s.phase.batch|
    ensures forall i | 0 <= i < |r.s.phase.batch| :: AcceptedLines(r)[|r.h.settled| + i] == r.s.phase.batch[i]
  {
    hide CountLines, LinesIn, LinesWith, Scoped, Accounts, OnDisk, Warned, BatchShape;
    var n, batch := |r.h.settled|, r.s.phase.batch;
    assert LinesOf(r.h.settled) + Uncounted(r.s) == AcceptedLines(r);
    hide AcceptedLines, LinesOf;
    forall i | 0 <= i < |batch| ensures AcceptedLines(r)[n + i] == batch[i] {
      assert (LinesOf(r.h.settled) + Uncounted(r.s))[n + i] == Uncounted(r.s)[i];
    }
  }

  function SlotsFrom(n: nat, count: nat): (slots: seq<nat>)
    ensures |slots| == count && forall i | 0 <= i < count :: slots[i] == n + i
  {
    seq(count, i requires 0 <= i < count => n + i)
  }

  // ---------------------------------------------------------------------
  // Sessions
  // ---------------------------------------------------------------------

  /** The sum of the sessions' counters. */
  ghost function SumOf(scopes: map<Session, Counters>, keys: set<Session>): Counters
    requires keys <= scopes.Keys
  {
    if keys == {} then ZERO
    else SumOf(scopes, keys - {Choose(keys)}).Plus(scopes[Choose(keys)])
  }

  ghost function SumLines(lines: seq<Line>, keys: set<Session>): nat {
    if keys == {} then 0
    else SumLines(lines, keys - {Choose(keys)}) + CountLines(lines, OfSession(Choose(keys)))
  }

  lemma {:induction false} SumLinesAppend(lines: seq<Line>, line: Line, keys: set<Session>)
    ensures SumLines(lines + [line], keys)
         == SumLines(lines, keys) + (if line.scope.Some? && line.scope.value in keys then 1 else 0)
    decreases keys
  {
    if keys != {} {
      SumLinesAppend(lines, line, keys - {Choose(keys)});
      CountOne(lines, line, OfSession(Choose(keys)));
    }
  }

  /** Lines whose session is unknown to `keys`: none, or an unscoped one. */
  ghost predicate KnownTo(lines: seq<Line>, keys: set<Session>) {
    forall x | x !in keys :: CountLines(lines, OfSession(x)) == 0
  }

  lemma {:induction false} LinesSplitBySession(lines: seq<Line>, keys: set<Session>)
    requires KnownTo(lines, keys)
    ensures |lines| == CountLines(lines, Unscoped) + SumLines(lines, keys)
  {
    if lines == [] {
      NoLinesNoSum(keys);
    } else {
      var init, last := lines[..|lines| - 1], lines[|lines| - 1];
      assert init + [last] == lines;
      forall x | x !in keys
        ensures CountLines(init, OfSession(x)) == 0 && last.scope != Some(x)
      {
        CountOne(init, last, OfSession(x));
      }
      LinesSplitBySession(init, keys);
      SumLinesAppend(init, last, keys);
      CountOne(init, last, Unscoped);
    }
  }

  lemma {:induction false} NoLinesNoSum(keys: set<Session>)
    ensures SumLines([], keys) == 0
    decreases keys
  {
    if keys != {} { NoLinesNoSum(keys - {Choose(keys)}); }
  }

  /** At the abandon step the unaccepted drops outnumbered the lines left in no
      part of the file (a session's lines, the unscoped lines), or in each. */
  ghost predicate SameSide(h: History) {
    h.mark.Some? ==>
      || (forall v: View | v != WholeFile :: CountLines(h.mark.value.drops, v) <= CountLines(h.mark.value.left, v))
      || (forall v: View | v != WholeFile :: CountLines(h.mark.value.drops, v) >= CountLines(h.mark.value.left, v))
  }

  ghost function SumAbandoned(h: History, keys: set<Session>): nat {
    if keys == {} then 0
    else SumAbandoned(h, keys - {Choose(keys)}) + AbandonedIn(h, OfSession(Choose(keys)))
  }

  /** Cutting each session's difference off at zero adds up to the difference
      of the sums only if none is cut, and to nothing only if all are. */
  lemma {:induction false} SumAbandonedLines(h: History, keys: set<Session>)
    requires h.mark.Some?
    ensures var m := h.mark.value;
      var balance := SumLines(m.left, keys) - SumLines(m.drops, keys);
      && SumAbandoned(h, keys) >= balance
      && (SumAbandoned(h, keys) == balance <==>
            forall x | x in keys :: CountLines(m.drops, OfSession(x)) <= CountLines(m.left, OfSession(x)))
      && (SumAbandoned(h, keys) == 0 <==>
            forall x | x in keys :: CountLines(m.drops, OfSession(x)) >= CountLines(m.left, OfSession(x)))
    decreases keys
  {
    hide CountLines;
    if keys != {} {
      var x := Choose(keys);
      SumAbandonedLines(h, keys - {x});
      assert keys == (keys - {x}) + {x};
    }
  }

  lemma {:induction false} SumTallies(r: Run, keys: set<Session>)
    requires Accounts(r) && keys <= r.s.scopes.Keys
    ensures SumOf(r.s.scopes, keys)
         == Counters(SumLines(LinesWith(r.h.settled, true), keys),
                     SumLines(LinesIn(r.h.calls, IsFull), keys),
                     SumLines(LinesWith(r.h.settled, false), keys) + SumLines(Drops(r.h.calls), keys)
                     + SumAbandoned(r.h, keys),
                     SumLines(LinesIn(r.h.calls, IsAccepted), keys))
    decreases keys
  {
    if keys != {} {
      var x := Choose(keys);
      SumTallies(r, keys - {x});
      SumStep(LinesWith(r.h.settled, true), keys);
      SumStep(LinesIn(r.h.calls, IsFull), keys);
      SumStep(LinesWith(r.h.settled, false), keys);
      SumStep(Drops(r.h.calls), keys);
      SumStep(LinesIn(r.h.calls, IsAccepted), keys);
      assert SumAbandoned(r.h, keys) == SumAbandoned(r.h, keys - {x}) + AbandonedIn(r.h, OfSession(x));
      assert SumOf(r.s.scopes, keys) == SumOf(r.s.scopes, keys - {x}).Plus(r.s.scopes[x]);
      assert r.s.scopes[x] == Tally(r.h, OfSession(x));
      hide SumOf, SumLines, SumAbandoned, CountLines, LinesIn, LinesWith, AbandonedIn, Accounts, Drops;
    }
  }

  lemma SumStep(lines: seq<Line>, keys: set<Session>)
    requires keys != {}
    ensures var x := Choose(keys);
      SumLines(lines, keys) == SumLines(lines, keys - {x}) + CountLines(lines, OfSession(x))
  {
    hide CountLines;
  }

  lemma AbandonedSplits(r: Run)
    requires Inv(r)
    ensures AbandonedIn(r.h, WholeFile) == AbandonedIn(r.h, Unscoped) + SumAbandoned(r.h, r.s.scopes.Keys)
       <==> SameSide(r.h)
  {
    var keys := r.s.scopes.Keys;
    if r.h.mark.None? {
      NothingAbandoned(r.h, keys);
    } else {
      assert KnownTo(r.h.mark.value.left, keys) && KnownTo(r.h.mark.value.drops, keys);
      hide Inv;
      AbandonedAdds(r.h, keys);
    }
  }

  lemma AbandonedAdds(h: History, keys: set<Session>)
    requires h.mark.Some? && KnownTo(h.mark.value.left, keys) && KnownTo(h.mark.value.drops, keys)
    ensures AbandonedIn(h, WholeFile) == AbandonedIn(h, Unscoped) + SumAbandoned(h, keys) <==> SameSide(h)
  {
    var m := h.mark.value;
    hide CountLines, SumLines, SumAbandoned;
    CountAll(m.left);
    CountAll(m.drops);
    SumAbandonedLines(h, keys);
    LinesSplitBySession(m.left, keys);
    LinesSplitBySession(m.drops, keys);
    assert SameSide(h) <==>
      || (CountLines(m.drops, Unscoped) <= CountLines(m.left, Unscoped)
          && forall x | x in keys :: CountLines(m.drops, OfSession(x)) <= CountLines(m.left, OfSession(x)))
      || (CountLines(m.drops, Unscoped) >= CountLines(m.left, Unscoped)
          && forall x | x in keys :: CountLines(m.drops, OfSession(x)) >= CountLines(m.left, OfSession(x))) by {
      SameSideIn(h, keys);
    }
  }

  /** Only the unscoped lines and the known sessions matter. */
  lemma SameSideIn(h: History, keys: set<Session>)
    requires h.mark.Some? && KnownTo(h.mark.value.left, keys) && KnownTo(h.mark.value.drops, keys)
    ensures var m := h.mark.value;
      SameSide(h) <==>
      || (CountLines(m.drops, Unscoped) <= CountLines(m.left, Unscoped)
          && forall x | x in keys :: CountLines(m.drops, OfSession(x)) <= CountLines(m.left, OfSession(x)))
      || (CountLines(m.drops, Unscoped) >= CountLines(m.left, Unscoped)
          && forall x | x in keys :: CountLines(m.drops, OfSession(x)) >= CountLines(m.left, OfSession(x)))
  {
    hide CountLines;
    var m := h.mark.value;
    forall v: View | v != WholeFile && v != Unscoped
      ensures v == OfSession(v.session)
      ensures v.session !in keys ==> CountLines(m.drops, v) == CountLines(m.left, v) == 0
    {}
  }

  lemma {:induction false} NothingAbandoned(h: History, keys: set<Session>)
    requires h.mark.None?
    ensures SumAbandoned(h, keys) == 0
    decreases keys
  {
    if keys != {} { NothingAbandoned(h, keys - {Choose(keys)}); }
  }

  /** In every state between steps the file's counters are the unscoped lines'
      and the sum of the sessions' in three fields; and in the failed writes too,
      exactly when an abandon, if there was one, did not clamp in some part of
      the file while another part had lines left. */
  lemma SessionsSumToFile(r: Run)
    requires Inv(r)
    ensures var parts := Tally(r.h, Unscoped).Plus(SumOf(r.s.scopes, r.s.scopes.Keys));
      && r.s.file.(writeFailed := 0) == parts.(writeFailed := 0)
      && (r.s.file == parts <==> SameSide(r.h))
  {
    hide CountLines, LinesIn, LinesWith, SumLines, SumAbandoned, SameSide, BytesOf;
    var keys := r.s.scopes.Keys;
    SumTallies(r, keys);
    AbandonedSplits(r);
    SplitAll(r, LinesWith(r.h.settled, true));
    SplitAll(r, LinesWith(r.h.settled, false));
    SplitAll(r, LinesIn(r.h.calls, IsAccepted));
    SplitAll(r, LinesIn(r.h.calls, IsFull));
    SplitAll(r, Drops(r.h.calls));
  }

  /** Any of the tallied sequences splits by session. */
  lemma SplitAll(r: Run, lines: seq<Line>)
    requires Inv(r)
    requires forall x | x !in r.s.scopes :: Tally(r.h, OfSession(x)) == ZERO ==> CountLines(lines, OfSession(x)) == 0
    ensures CountLines(lines, WholeFile)
         == CountLines(lines, Unscoped) + SumLines(lines, r.s.scopes.Keys)
  {
    CountAll(lines);
    forall x | x !in r.s.scopes.Keys
      ensures CountLines(lines, OfSession(x)) == 0
    {
      NothingOfOthers(r, x);
    }
    LinesSplitBySession(lines, r.s.scopes.Keys);
  }

  // ---------------------------------------------------------------------
  // Warnings, batches, and the end of the writer
  // ---------------------------------------------------------------------

  /** One WARN for each maximal block of failures, the startup probe first. */
  lemma OneWarningPerFailureBlock(r: Run)
    requires Reachable(r)
    ensures r.s.warns == |BlockStarts(r.h.failures)|
  {
    ReachableInv(r);
  }

  /** A batch is at most its first line, or one byte short of the limit plus
      the longest line. */
  lemma BatchBounded(r: Run, longest: nat)
    requires Inv(r) && (r.s.phase.Holding? || r.s.phase.Settling?)
    requires forall i | 0 <= i < |r.s.phase.batch| :: |r.s.phase.batch[i].bytes| <= longest
    ensures r.s.phase.batch != []
    ensures |BytesOf(r.s.phase.batch)|
         <= Max(|r.s.phase.batch[0].bytes|, MAX_BATCH_BYTES - 1 + longest)
  {
    var batch := r.s.phase.batch;
    if |batch| == 1 {
      assert batch[..0] == [];
    }
  }

  predicate IsWriters(a: Action) {
    a.Probe? || a.Recv? || a.Drain? || a.Seal? || a.Sink? || a.Settle? || a.Finish?
  }

  /** The writer's next step, given what the path or the sink answers. */
  function WriterMove(s: State, answer: bool): Action {
    match s.phase
    case Probing => Probe(answer)
    case Idle => if s.channel != [] then Recv else Finish
    case Holding(batch, sealed) =>
      if sealed then Sink(answer)
      else if s.channel != [] && |BytesOf(batch)| < MAX_BATCH_BYTES then Drain
      else Seal
    case _ => Settle
  }

  /** Writer steps still ahead once no line can arrive, at most. */
  function Measure(s: State): nat {
    4 * |s.channel| +
    match s.phase
    case Probing => 2
    case Idle => 1
    case Holding(_, sealed) => if sealed then 3 else 4
    case Settling(_, _) => 2
    case _ => 0
  }

  /** A writer that has not ended always has a step to take once the sender is
      gone, whatever its sink answers. */
  lemma WriterNeverStuck(r: Run, answer: bool)
    requires Inv(r) && !r.s.open && !r.s.phase.Finished? && !r.s.phase.Gone?
    ensures IsWriters(WriterMove(r.s, answer)) && Enabled(r.s, WriterMove(r.s, answer))
  {
  }

  function WriterSteps(actions: seq<Action>): nat {
    if actions == [] then 0
    else WriterSteps(actions[..|actions| - 1]) + (if IsWriters(actions[|actions| - 1]) then 1 else 0)
  }

  lemma MeasureOfWriter(r: Run, a: Action)
    requires Inv(r) && Enabled(r.s, a) && IsWriters(a)
    ensures Measure(Next(r.s, a)) < Measure(r.s) && Next(r.s, a).open == r.s.open
  {
    hide CountLines, LinesIn, LinesWith, BytesOf, Accounts, OnDisk, Warned, Scoped, BatchShape, Flow;
  }

  lemma MeasureOfOthers(r: Run, a: Action)
    requires Inv(r) && Enabled(r.s, a) && !IsWriters(a) && !r.s.open && !a.Panic?
    ensures Measure(Next(r.s, a)) == Measure(r.s) && !Next(r.s, a).open
  {
    hide CountLines, LinesIn, LinesWith, BytesOf, Accounts, OnDisk, Warned, Scoped, BatchShape;
  }

  lemma EndedWriter(r: Run)
    requires Inv(r) && Measure(r.s) == 0 && !r.s.phase.Gone?
    ensures r.s.phase.Finished? && r.s.channel == []
  {}

  /** Once the sender is gone, no run takes more than `Measure` writer steps,
      and one that took them all has ended with an empty channel. */
  lemma {:induction false} WriterStops(from: Run, actions: seq<Action>, to: Run)
    requires Inv(from) && After(from, actions) == Some(to) && !from.s.open && Panic !in actions
    ensures WriterSteps(actions) + Measure(to.s) <= Measure(from.s) && !to.s.open
    ensures WriterSteps(actions) == Measure(from.s) && !to.s.phase.Gone? ==> to.s.phase.Finished? && to.s.channel == []
  {
    if Measure(to.s) == 0 && !to.s.phase.Gone? { EndedWriter(to); }
    if actions != [] {
      var init, a := actions[..|actions| - 1], actions[|actions| - 1];
      assert forall b | b in init :: b in actions;
      var at := After(from, init).value;
      hide Inv, Measure, Next, Enabled;
      WriterStops(from, init, at);
      if IsWriters(a) { MeasureOfWriter(at, a); } else { MeasureOfOthers(at, a); }
    }
  }
}
