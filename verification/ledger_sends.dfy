/** When an append is accepted, in the numbers and states of src/ledger.rs, and
    what the counters count. */
module LedgerSends {
  import opened Prelude
  import opened CallLedger
  import opened LedgerInvariant
  import opened LedgerTheorems

  // ---------------------------------------------------------------------
  // One send
  // ---------------------------------------------------------------------

  /** The receiver still exists. */
  predicate Alive(s: State) {
    !s.phase.Finished? && !s.phase.Gone?
  }

  /** A send is accepted exactly if there is a sender, a live writer and room among
      1024 lines, and refused for the first of these that is missing. */
  lemma SendIsAnsweredExactly(s: State, line: Line)
    requires Enabled(s, Send(line))
    ensures var t := Next(s, Send(line));
      && t.pending.Some? && t.pending.value.line == line
      && var o := t.pending.value.outcome;
      && (o == Accepted <==> s.open && Alive(s) && |s.channel| < 1024)
      && (o == ChannelFull <==> s.open && Alive(s) && |s.channel| >= 1024)
      && (o == Disconnected <==> s.open && !Alive(s))
      && (o == NoSender <==> !s.open)
      && t == s.(pending := t.pending, channel := s.channel + if o == Accepted then [line] else [])
  {}

  /** A whole append: its line enters the channel and is counted as accepted, or
      it is counted once as a drop of the right kind, for the file and the
      handle's session. */
  lemma AppendCountsOnce(s: State, line: Line)
    requires Enabled(s, Send(line))
    ensures Enabled(Next(s, Send(line)), Count)
    ensures var t := Next(Next(s, Send(line)), Count);
      var accepted := s.open && Alive(s) && |s.channel| < 1024;
      var full := s.open && Alive(s) && |s.channel| >= 1024;
      && t.channel == s.channel + (if accepted then [line] else [])
      && t.phase == s.phase && t.open == s.open && t.disk == s.disk && t.pending.None?
      && Counted(s.file, t.file, accepted, full)
      && t.scopes.Keys == s.scopes.Keys
      && (forall x | x in s.scopes ::
            if line.scope == Some(x) then Counted(s.scopes[x], t.scopes[x], accepted, full)
            else t.scopes[x] == s.scopes[x])
  {}

  predicate Counted(before: Counters, after: Counters, accepted: bool, full: bool) {
    && after.written == before.written
    && after.accepted == before.accepted + (if accepted then 1 else 0)
    && after.channelFull == before.channelFull + (if full then 1 else 0)
    && after.writeFailed == before.writeFailed + (if accepted || full then 0 else 1)
  }

  // ---------------------------------------------------------------------
  // Runs
  // ---------------------------------------------------------------------

  predicate NeitherClosedNorPanicked(actions: seq<Action>) {
    forall i | 0 <= i < |actions| :: !actions[i].TakeSender? && !actions[i].Panic?
  }

  function SendsIn(actions: seq<Action>): set<int> {
    set i | 0 <= i < |actions| && actions[i].Send?
  }

  lemma SendsOneMore(actions: seq<Action>, a: Action)
    ensures |SendsIn(actions + [a])| == |SendsIn(actions)| + if a.Send? then 1 else 0
  {
    OneMore(SendsIn(actions), SendsIn(actions + [a]), |actions|);
  }

  /** Both ends of the channel are there, and it holds no more lines than so many. */
  predicate Roomy(s: State, lines: nat) {
    s.open && Alive(s) && |s.channel| <= lines
  }

  lemma RoomOneMore(s: State, a: Action, lines: nat)
    requires Enabled(s, a) && !a.TakeSender? && !a.Panic? && Roomy(s, lines)
    ensures Roomy(Next(s, a), lines + if a.Send? then 1 else 0)
  {
    hide BytesOf, CountLines, AppendLast, Held, SettleScopes, AbandonScopes;
  }

  lemma RoomAtFirst()
    ensures After(Opened(true), []) == Some(Opened(true)) && Roomy(Opened(true).s, |SendsIn([])|)
  {}

  /** While nobody takes the sender and the writer does not panic, both stay, and
      the channel holds no more lines than were sent. */
  lemma {:induction false} RoomWhileOpen(actions: seq<Action>)
    requires After(Opened(true), actions).Some? && NeitherClosedNorPanicked(actions)
    ensures Roomy(After(Opened(true), actions).value.s, |SendsIn(actions)|)
  {
    hide After, Next, Enabled, SendsIn, Roomy, Inv, Opened;
    if actions == [] {
      RoomAtFirst();
    } else {
      var n := |actions| - 1;
      var init, a := actions[..n], actions[n];
      assert init + [a] == actions;
      StepOf(init, a);
      RoomWhileOpen(init);
      RoomOneMore(After(Opened(true), init).value.s, a, |SendsIn(init)|);
      SendsOneMore(init, a);
    }
  }

  lemma StepOf(init: seq<Action>, a: Action)
    requires After(Opened(true), init + [a]).Some?
    ensures After(Opened(true), init).Some?
    ensures var r := After(Opened(true), init).value;
      Enabled(r.s, a) && After(Opened(true), init + [a]).value.s == Next(r.s, a)
  {
    assert (init + [a])[..|init|] == init;
  }

  /** Of any run from a ledger with a writer, in which nobody takes the sender and
      the writer does not panic, the first 1024 sends are accepted, however slow
      the writer is. */
  lemma FirstSendsAreAccepted(actions: seq<Action>, line: Line)
    requires After(Opened(true), actions + [Send(line)]).Some?
    requires NeitherClosedNorPanicked(actions) && |SendsIn(actions)| < 1024
    ensures After(Opened(true), actions + [Send(line)]).value.s.pending == Some(Call(line, Accepted))
  {
    hide After, Enabled, SendsIn;
    StepOf(actions, Send(line));
    RoomWhileOpen(actions);
    SendIsAnsweredExactly(After(Opened(true), actions).value.s, line);
  }

  // ---------------------------------------------------------------------
  // Refusals
  // ---------------------------------------------------------------------

  /** How many appends were accepted before the i-th. */
  function AcceptedBefore(calls: seq<Call>, i: nat): set<int>
    requires i <= |calls|
  {
    set j | 0 <= j < i && calls[j].outcome == Accepted
  }

  lemma {:induction false} RankIsCount(calls: seq<Call>, i: nat)
    requires i <= |calls|
    ensures Rank(calls, i) == |AcceptedBefore(calls, i)|
  {
    if i > 0 {
      RankIsCount(calls, i - 1);
      assert calls[..i][..i - 1] == calls[..i - 1];
      OneMore(AcceptedBefore(calls, i - 1), AcceptedBefore(calls, i), i - 1);
    }
  }

  /** What must have been so when an append was refused. */
  ghost predicate HasReason(s: State, calls: seq<Call>, i: nat, outcome: Outcome)
    requires i <= |calls|
  {
    match outcome
    case ChannelFull => |AcceptedBefore(calls, i)| >= 1024
    case NoSender => !s.open
    case Disconnected => s.phase.Gone?
    case _ => true
  }

  ghost predicate Reasoned(r: Run) {
    && (forall i | 0 <= i < |r.h.calls| :: HasReason(r.s, r.h.calls, i, r.h.calls[i].outcome))
    && (r.s.pending.Some? ==> HasReason(r.s, r.h.calls, |r.h.calls|, r.s.pending.value.outcome))
  }

  /** A taken sender stays away, and so does a writer that is gone. */
  lemma GoneStaysGone(s: State, a: Action)
    requires Enabled(s, a)
    ensures !s.open ==> !Next(s, a).open
    ensures s.phase.Gone? ==> Next(s, a).phase.Gone?
  {
    hide BytesOf, CountLines, AppendLast, Held, SettleScopes, AbandonScopes;
  }

  lemma ReasonStays(s: State, t: State, calls: seq<Call>, more: seq<Call>, i: nat, outcome: Outcome)
    requires i <= |calls| && calls <= more && HasReason(s, calls, i, outcome)
    requires (!s.open ==> !t.open) && (s.phase.Gone? ==> t.phase.Gone?)
    ensures HasReason(t, more, i, outcome)
  {
    assert AcceptedBefore(more, i) == AcceptedBefore(calls, i);
  }

  /** What a step does to the calls: nothing, or one more, the pending one or one
      that did not serialize. */
  lemma CallsOfStep(r: Run, a: Action)
    requires Enabled(r.s, a)
    ensures var q := Step(r, a);
      if a.Count? then q.h.calls == r.h.calls + [r.s.pending.value] && q.s.pending.None?
      else if a.DropUnserializable? then
        && |q.h.calls| == |r.h.calls| + 1 && r.h.calls <= q.h.calls
        && q.h.calls[|r.h.calls|].outcome == Unserializable && q.s.pending == r.s.pending
      else q.h.calls == r.h.calls && (a.Send? || q.s.pending == r.s.pending)
  {
    hide BytesOf, CountLines, AppendLast, Held, SettleScopes, AbandonScopes, Drops;
  }

  lemma SendHasReason(r: Run, line: Line)
    requires Inv(r) && Enabled(r.s, Send(line))
    ensures var q := Step(r, Send(line));
      HasReason(q.s, q.h.calls, |q.h.calls|, q.s.pending.value.outcome)
  {
    SendIsAnsweredExactly(r.s, line);
    CallsOfStep(r, Send(line));
    RankIsCount(r.h.calls, |r.h.calls|);
    assert r.h.calls[..|r.h.calls|] == r.h.calls;
    FullMeansAccepted(r);
    hide Step, Next, LinesIn, Flow, Inv, AcceptedBefore;
    assert Step(r, Send(line)).s == Next(r.s, Send(line)) by { StepIsNext(r, Send(line)); }
  }

  lemma StepIsNext(r: Run, a: Action)
    requires Enabled(r.s, a)
    ensures Step(r, a).s == Next(r.s, a)
  {}

  lemma FullMeansAccepted(r: Run)
    requires Inv(r) && r.s.pending.None?
    ensures |r.s.channel| <= |LinesIn(r.h.calls, IsAccepted)|
    ensures r.s.phase.Finished? ==> !r.s.open
  {
    hide LinesIn, Scoped, Accounts, OnDisk, Warned;
    assert LinesOf(r.h.settled) + Uncounted(r.s) == LinesIn(r.h.calls, IsAccepted) + [];
  }

  lemma ReasonedStep(r: Run, a: Action)
    requires Inv(r) && Reasoned(r) && Enabled(r.s, a)
    ensures Reasoned(Step(r, a))
  {
    var q := Step(r, a);
    GoneStaysGone(r.s, a);
    CallsOfStep(r, a);
    StepIsNext(r, a);
    if a.Send? { SendHasReason(r, a.line); }
    hide Step, Next, Enabled, Inv, HasReason;
    var calls, more := r.h.calls, q.h.calls;
    forall i | 0 <= i < |more| ensures HasReason(q.s, more, i, more[i].outcome) {
      if i < |calls| {
        ReasonStays(r.s, q.s, calls, more, i, calls[i].outcome);
      } else if a.Count? {
        ReasonStays(r.s, q.s, calls, more, i, r.s.pending.value.outcome);
      } else {
        UnserializableHasReason(q.s, more, i);
      }
    }
    if q.s.pending.Some? && !a.Send? {
      PendingReasonStays(r, q);
    }
  }

  lemma UnserializableHasReason(s: State, calls: seq<Call>, i: nat)
    requires i <= |calls|
    ensures HasReason(s, calls, i, Unserializable)
  {}

  lemma PendingReasonStays(r: Run, q: Run)
    requires Reasoned(r) && q.s.pending == r.s.pending && q.s.pending.Some? && r.h.calls <= q.h.calls
    requires (!r.s.open ==> !q.s.open) && (r.s.phase.Gone? ==> q.s.phase.Gone?)
    ensures HasReason(q.s, q.h.calls, |q.h.calls|, q.s.pending.value.outcome)
  {
    assert AcceptedBefore(r.h.calls, |r.h.calls|) <= AcceptedBefore(q.h.calls, |q.h.calls|);
    SubsetSize(AcceptedBefore(r.h.calls, |r.h.calls|), AcceptedBefore(q.h.calls, |q.h.calls|));
  }

  lemma {:induction false} RunIsReasoned(from: Run, actions: seq<Action>)
    requires Inv(from) && Reasoned(from) && After(from, actions).Some?
    ensures Reasoned(After(from, actions).value)
  {
    hide Inv, Reasoned, Step, Enabled;
    if actions != [] {
      RunIsReasoned(from, actions[..|actions| - 1]);
      ReasonedStep(After(from, actions[..|actions| - 1]).value, actions[|actions| - 1]);
    }
  }

  /** In every reachable state each refused append has its reason: a full channel
      had accepted at least 1024 lines before, a missing sender is still missing,
      and a disconnected channel's writer panicked or never was. */
  lemma RefusedForItsReason(r: Run, i: nat)
    requires Reachable(r) && i < |r.h.calls|
    ensures match r.h.calls[i].outcome
            case ChannelFull => |AcceptedBefore(r.h.calls, i)| >= 1024
            case NoSender => !r.s.open
            case Disconnected => r.s.phase.Gone?
            case _ => true
  {
    var spawned: bool, actions: seq<Action> :| After(Opened(spawned), actions) == Some(r);
    OpenedInv(spawned);
    hide Inv;
    assert Reasoned(Opened(spawned));
    RunIsReasoned(Opened(spawned), actions);
    assert HasReason(r.s, r.h.calls, i, r.h.calls[i].outcome);
  }

  // ---------------------------------------------------------------------
  // What the counters count
  // ---------------------------------------------------------------------

  /** A handle of the session, or any handle. */
  predicate Seen(session: Option<Session>, line: Line) {
    session.Some? ==> line.scope == session
  }

  function CallsEnding(calls: seq<Call>, session: Option<Session>, outcomes: set<Outcome>): set<int> {
    set i | 0 <= i < |calls| && Seen(session, calls[i].line) && calls[i].outcome in outcomes
  }

  function LinesEnding(settled: seq<Settled>, session: Option<Session>, ok: bool): set<int> {
    set i | 0 <= i < |settled| && Seen(session, settled[i].line) && settled[i].ok == ok
  }

  function ViewOf(session: Option<Session>): View {
    if session.Some? then OfSession(session.value) else WholeFile
  }

  function OutcomesOf(k: Class): set<Outcome> {
    match k
    case IsAccepted => {Accepted}
    case IsFull => {ChannelFull}
    case IsDropped => {NoSender, Disconnected, Unserializable}
  }

  lemma {:induction false} CallsAreCounted(calls: seq<Call>, session: Option<Session>, k: Class)
    ensures CountLines(LinesIn(calls, k), ViewOf(session)) == |CallsEnding(calls, session, OutcomesOf(k))|
  {
    var s := OutcomesOf(k);
    if calls != [] {
      var n := |calls| - 1;
      CallsAreCounted(calls[..n], session, k);
      CallsEndingMore(calls, session, s);
      var lines := LinesIn(calls[..n], k);
      assert InClass(k, calls[n].outcome) <==> calls[n].outcome in s;
      assert lines + [] == lines;
      assert (lines + [calls[n].line])[..|lines|] == lines;
      hide CallsEnding;
    }
  }

  lemma CallsEndingMore(calls: seq<Call>, session: Option<Session>, s: set<Outcome>)
    requires calls != []
    ensures var n := |calls| - 1;
      |CallsEnding(calls, session, s)| == |CallsEnding(calls[..n], session, s)|
        + if Seen(session, calls[n].line) && calls[n].outcome in s then 1 else 0
  {
    var n := |calls| - 1;
    hide Seen;
    OneMore(CallsEnding(calls[..n], session, s), CallsEnding(calls, session, s), n);
  }

  lemma {:induction false} LinesAreCounted(settled: seq<Settled>, session: Option<Session>, ok: bool)
    ensures CountLines(LinesWith(settled, ok), ViewOf(session)) == |LinesEnding(settled, session, ok)|
  {
    if settled != [] {
      var n := |settled| - 1;
      LinesAreCounted(settled[..n], session, ok);
      LinesEndingMore(settled, session, ok);
      var lines := LinesWith(settled[..n], ok);
      assert lines + [] == lines;
      assert (lines + [settled[n].line])[..|lines|] == lines;
      hide LinesEnding;
    }
  }

  lemma LinesEndingMore(settled: seq<Settled>, session: Option<Session>, ok: bool)
    requires settled != []
    ensures var n := |settled| - 1;
      |LinesEnding(settled, session, ok)| == |LinesEnding(settled[..n], session, ok)|
        + if Seen(session, settled[n].line) && settled[n].ok == ok then 1 else 0
  {
    var n := |settled| - 1;
    hide Seen;
    OneMore(LinesEnding(settled[..n], session, ok), LinesEnding(settled, session, ok), n);
  }

  /** In every reachable state the counters of the file and of each session are
      numbers of appends and of settled lines; the failed writes, until a writer is
      abandoned, those of failed batches and of drops other than full channels. */
  lemma CountersCountCalls(r: Run, session: Option<Session>)
    requires Inv(r) && (session.Some? ==> session.value in r.s.scopes)
    ensures var c := if session.Some? then r.s.scopes[session.value] else r.s.file;
      && c.accepted == |CallsEnding(r.h.calls, session, {Accepted})|
      && c.channelFull == |CallsEnding(r.h.calls, session, {ChannelFull})|
      && c.written == |LinesEnding(r.h.settled, session, true)|
      && (r.h.mark.None? ==>
            c.writeFailed == |LinesEnding(r.h.settled, session, false)|
                             + |CallsEnding(r.h.calls, session, {NoSender, Disconnected, Unserializable})|)
  {
    CallsAreCounted(r.h.calls, session, IsAccepted);
    CallsAreCounted(r.h.calls, session, IsFull);
    CallsAreCounted(r.h.calls, session, IsDropped);
    LinesAreCounted(r.h.settled, session, true);
    LinesAreCounted(r.h.settled, session, false);
    hide LinesIn, LinesWith, CountLines, CallsEnding, LinesEnding, Flow, Scoped, OnDisk, Warned, BatchShape;
  }

  // ---------------------------------------------------------------------
  // The writer while the ledger is open
  // ---------------------------------------------------------------------

  /** A live writer that has lines in the channel or in hand has a step to take,
      whatever path and sink answer, and its next step is the only one. */
  lemma WriterHasAStep(s: State, answer: bool)
    requires Alive(s) && (s.channel != [] || !s.phase.Idle?)
    ensures IsWriters(WriterMove(s, answer)) && Enabled(s, WriterMove(s, answer))
  {
    hide BytesOf;
  }

  /** A batch is sealed only when the channel is empty or it has reached 1048576
      bytes, and drained only before. */
  lemma SealedWhenFull(s: State)
    requires s.phase.Holding? && !s.phase.sealed
    ensures Enabled(s, Seal) <==> s.channel == [] || |BytesOf(s.phase.batch)| >= 1048576
    ensures Enabled(s, Drain) <==> s.channel != [] && |BytesOf(s.phase.batch)| < 1048576
    ensures Enabled(s, Drain) ==>
      var t := Next(s, Drain);
      t.phase.Holding? && t.phase.batch + t.channel == s.phase.batch + s.channel && |t.channel| == |s.channel| - 1
  {
    hide BytesOf;
  }
}
