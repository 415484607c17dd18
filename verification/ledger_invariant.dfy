/** Every step of the ledger's machine keeps the invariant, so it holds in
    every state any interleaving can reach. */
module LedgerInvariant {
  import opened Prelude
  import opened CallLedger

  lemma CountOne(lines: seq<Line>, line: Line, v: View)
    ensures CountLines(lines + [line], v) == CountLines(lines, v) + (if InView(v, line.scope) then 1 else 0)
  {
    assert (lines + [line])[..|lines|] == lines;
  }

  lemma LinesInCount(calls: seq<Call>, c: Call, k: Class, v: View)
    ensures CountLines(LinesIn(calls + [c], k), v)
         == CountLines(LinesIn(calls, k), v) + (if InClass(k, c.outcome) && InView(v, c.line.scope) then 1 else 0)
  {
    LinesInAppend(calls, c, k);
    if InClass(k, c.outcome) {
      CountOne(LinesIn(calls, k), c.line, v);
    } else {
      assert LinesIn(calls, k) + [] == LinesIn(calls, k);
    }
  }

  /** One call changes the tally of each view by the one count it makes there. */
  lemma TallyOfCall(h: History, c: Call, v: View)
    ensures Tally(h.(calls := h.calls + [c]), v)
         == if InView(v, c.line.scope) then Tally(h, v).CountCall(c.outcome) else Tally(h, v)
  {
    hide CountLines, LinesIn, LinesWith;
    TallyFields(h, h.(calls := h.calls + [c]), c, v);
  }

  lemma TallyFields(h: History, g: History, c: Call, v: View)
    requires g.calls == h.calls + [c] && g.settled == h.settled && g.mark == h.mark
    ensures var (a, b) := (Tally(h, v), Tally(g, v));
            && b.written == a.written
            && b.accepted == a.accepted + (if InClass(IsAccepted, c.outcome) && InView(v, c.line.scope) then 1 else 0)
            && b.channelFull == a.channelFull + (if InClass(IsFull, c.outcome) && InView(v, c.line.scope) then 1 else 0)
            && b.writeFailed
               == a.writeFailed + (if InClass(IsDropped, c.outcome) && InView(v, c.line.scope) then 1 else 0)
  {
    LinesInCount(h.calls, c, IsAccepted, v);
    LinesInCount(h.calls, c, IsFull, v);
    LinesInCount(h.calls, c, IsDropped, v);
  }

  lemma TallyOfBatch(h: History, batch: seq<Line>, ok: bool, v: View)
    ensures Tally(h.(settled := h.settled + Verdicts(batch, ok)), v)
         == Tally(h, v).CountBatch(CountLines(batch, v), ok)
  {
    LinesWithBatch(h.settled, batch, ok);
    CountConcat(LinesWith(h.settled, ok), batch, v);
  }

  lemma {:induction false} CountsInSettled(settled: seq<Settled>, v: View)
    ensures CountLines(LinesOf(settled), v)
         == CountLines(LinesWith(settled, true), v) + CountLines(LinesWith(settled, false), v)
  {
    if settled != [] {
      var init, last := settled[..|settled| - 1], settled[|settled| - 1];
      CountsInSettled(init, v);
      assert LinesOf(settled) == LinesOf(init) + [last.line];
      LinesWithLast(settled);
      hide CountLines, LinesWith;
      CountOne(LinesOf(init), last.line, v);
      CountOne(LinesWith(init, last.ok), last.line, v);
    }
  }

  lemma LinesWithLast(settled: seq<Settled>)
    requires settled != []
    ensures var init, last := settled[..|settled| - 1], settled[|settled| - 1];
            && LinesWith(settled, last.ok) == LinesWith(init, last.ok) + [last.line]
            && LinesWith(settled, !last.ok) == LinesWith(init, !last.ok)
  {
    var init, last := settled[..|settled| - 1], settled[|settled| - 1];
    assert LinesWith(init, !last.ok) + [] == LinesWith(init, !last.ok);
  }

  /** Accepted lines of a view are counted, or wait to be. */
  lemma AcceptedIn(r: Run, v: View)
    requires Flow(r)
    ensures CountLines(LinesIn(r.h.calls, IsAccepted), v) + CountLines(PendingAccepted(r.s), v)
         == CountLines(LinesWith(r.h.settled, true), v) + CountLines(LinesWith(r.h.settled, false), v)
            + CountLines(Uncounted(r.s), v)
  {
    hide CountLines, LinesIn, LinesWith;
    CountsInSettled(r.h.settled, v);
    CountConcat(LinesOf(r.h.settled), Uncounted(r.s), v);
    CountConcat(LinesIn(r.h.calls, IsAccepted), PendingAccepted(r.s), v);
  }

  /** What an abandon adds to a view is what the view's `queued()` read. */
  lemma QueuedIsUncounted(r: Run, v: View)
    requires Flow(r)
    ensures Tally(r.h, v).Queued()
         == Monus(CountLines(Uncounted(r.s), v),
                  CountLines(PendingAccepted(r.s), v) + CountLines(Drops(r.h.calls), v) + AbandonedIn(r.h, v))
  {
    hide CountLines, LinesIn, LinesWith;
    AcceptedIn(r, v);
  }

  lemma OpenedInv(spawned: bool)
    ensures Inv(Opened(spawned))
  {
    var r := Opened(spawned);
    assert BlockStarts([]) == {};
    FlattenAppend<Line>([], []);
  }

  lemma FlowOfSend(r: Run, line: Line)
    requires Inv(r) && Enabled(r.s, Send(line))
    ensures Flow(Step(r, Send(line)))
  {
    hide CountLines, LinesIn, LinesWith, BytesOf;
    var q := Step(r, Send(line));
    assert PendingAccepted(r.s) == [];
    if TrySend(r.s).Accepted? {
      assert Uncounted(q.s) == Uncounted(r.s) + [line];
      assert PendingAccepted(q.s) == [line];
      assert LinesOf(q.h.settled) + Uncounted(q.s) == LinesOf(r.h.settled) + Uncounted(r.s) + [line];
    }
  }

  lemma FlowOfCall(r: Run, a: Action)
    requires Inv(r) && Enabled(r.s, a) && (a.Count? || a.DropUnserializable?)
    ensures Flow(Step(r, a))
  {
    var q := Step(r, a);
    var c := if a.Count? then r.s.pending.value else Call(Line([], a.scope, a.handle), Unserializable);
    assert q.h.calls == r.h.calls + [c];
    LinesInAppend(r.h.calls, c, IsAccepted);
    assert AcceptedLines(q) == AcceptedLines(r);
  }

  lemma FlowOfTake(r: Run, a: Action)
    requires Inv(r) && Enabled(r.s, a) && (a.Recv? || a.Drain?)
    ensures Flow(Step(r, a))
  {
    hide CountLines, LinesIn, LinesWith;
    var q := Step(r, a);
    assert Uncounted(q.s) == Uncounted(r.s);
    assert AcceptedLines(q) == AcceptedLines(r);
  }

  lemma FlowOfSettle(r: Run)
    requires Inv(r) && Enabled(r.s, Settle)
    ensures Flow(Step(r, Settle))
  {
    hide CountLines, LinesIn, LinesWith, BytesOf;
    var q := Step(r, Settle);
    assert LinesOf(q.h.settled) == LinesOf(r.h.settled) + r.s.phase.batch;
    assert Uncounted(q.s) == r.s.channel;
    assert AcceptedLines(q) == AcceptedLines(r);
  }

  lemma FlowOfPanic(r: Run)
    requires Inv(r) && Enabled(r.s, Panic)
    ensures Flow(Step(r, Panic))
  {
    hide CountLines, LinesIn, LinesWith, BytesOf, LinesOf, Scoped, Accounts, OnDisk, Warned, BatchShape;
    var q := Step(r, Panic);
    assert q.h == r.h && q.s.pending == r.s.pending;
    assert Uncounted(q.s) == Uncounted(r.s);
  }

  /** The steps that move no line. */
  predicate Quiet(a: Action) {
    a.ForSession? || a.Probe? || a.Seal? || a.Sink? || a.Finish? || a.TakeSender? || a.TakeWriter?
    || a.Abandon? || a.Join? || a.MoveFile?
  }

  lemma QuietStep(r: Run, a: Action)
    requires Inv(r) && Enabled(r.s, a) && Quiet(a)
    ensures var q := Step(r, a);
            && q.h.calls == r.h.calls && q.h.settled == r.h.settled
            && q.s.pending == r.s.pending && q.s.channel == r.s.channel && Held(q.s.phase) == Held(r.s.phase)
  {
    hide CountLines, LinesIn, LinesWith, BytesOf, LinesOf, Scoped, Accounts, OnDisk, Warned;
  }

  lemma SameLines(r: Run, q: Run)
    requires q.h.calls == r.h.calls && q.h.settled == r.h.settled
    requires q.s.pending == r.s.pending && q.s.channel == r.s.channel && Held(q.s.phase) == Held(r.s.phase)
    ensures AcceptedLines(q) == AcceptedLines(r) && Uncounted(q.s) == Uncounted(r.s)
    ensures LinesOf(q.h.settled) == LinesOf(r.h.settled) && PendingAccepted(q.s) == PendingAccepted(r.s)
  {}

  lemma FlowOfTakeSender(r: Run)
    requires Inv(r) && Enabled(r.s, TakeSender)
    ensures Flow(Step(r, TakeSender))
  {
    QuietStep(r, TakeSender);
    SameLines(r, Step(r, TakeSender));
    assert r.s.pending.None? ==> PendingAccepted(r.s) == [];
    hide CountLines, LinesIn, LinesWith, LinesOf, BytesOf, AcceptedLines, PendingAccepted, Uncounted;
    hide Scoped, Accounts, OnDisk, Warned, BatchShape, Held;
  }

  lemma FlowOfTakeWriter(r: Run)
    requires Inv(r) && Enabled(r.s, TakeWriter)
    ensures Flow(Step(r, TakeWriter))
  {
    QuietStep(r, TakeWriter);
    SameLines(r, Step(r, TakeWriter));
    assert r.s.pending.None? ==> PendingAccepted(r.s) == [];
    hide CountLines, LinesIn, LinesWith, LinesOf, BytesOf, AcceptedLines, PendingAccepted, Uncounted;
    hide Scoped, Accounts, OnDisk, Warned, BatchShape, Held;
  }

  lemma FlowOfJoin(r: Run)
    requires Inv(r) && Enabled(r.s, Join)
    ensures Flow(Step(r, Join))
  {
    QuietStep(r, Join);
    SameLines(r, Step(r, Join));
    assert r.s.pending.None? ==> PendingAccepted(r.s) == [];
    hide CountLines, LinesIn, LinesWith, LinesOf, BytesOf, AcceptedLines, PendingAccepted, Uncounted;
    hide Scoped, Accounts, OnDisk, Warned, BatchShape, Held;
  }

  lemma FlowOfAbandon(r: Run)
    requires Inv(r) && Enabled(r.s, Abandon)
    ensures Flow(Step(r, Abandon))
  {
    QuietStep(r, Abandon);
    SameLines(r, Step(r, Abandon));
    assert LinesOf(r.h.settled) + Uncounted(r.s) == AcceptedLines(r);
    assert AcceptedLines(r)[|r.h.settled|..] == Uncounted(r.s);
    hide CountLines, LinesIn, LinesWith, LinesOf, BytesOf, AcceptedLines, PendingAccepted;
    hide Scoped, Accounts, OnDisk, Warned, BatchShape, AbandonScopes;
  }

  /** Sender, receiver and mark stay, and the writer ends only behind an empty channel. */
  predicate GoesOn(r: Run, q: Run) {
    && q.s.open == r.s.open && q.s.waiting == r.s.waiting && q.s.writer == r.s.writer && q.h.mark == r.h.mark
    && (q.s.phase == r.s.phase
        || (!q.s.phase.Gone? && (q.s.phase.Finished? ==> q.s.channel == [] && !q.s.open)))
  }

  lemma WriterGoesOn(r: Run, a: Action)
    requires Enabled(r.s, a)
    requires a.Probe? || a.Seal? || a.Sink? || a.Finish? || a.ForSession? || a.MoveFile?
    ensures GoesOn(r, Step(r, a))
  {
    hide CountLines, LinesIn, LinesWith, LinesOf, BytesOf, AppendLast, Held, SettleScopes, AbandonScopes;
    hide Drops, TrySend;
  }

  lemma FlowGoesOn(r: Run, q: Run)
    requires Flow(r) && GoesOn(r, q)
    requires q.h.calls == r.h.calls && q.h.settled == r.h.settled
    requires q.s.pending == r.s.pending && q.s.channel == r.s.channel && Held(q.s.phase) == Held(r.s.phase)
    ensures Flow(q)
  {
    SameLines(r, q);
    hide LinesIn, LinesOf, AcceptedLines, PendingAccepted, Uncounted, Held;
  }

  lemma FlowOfRest(r: Run, a: Action)
    requires Inv(r) && Enabled(r.s, a)
    requires a.Probe? || a.Seal? || a.Sink? || a.Finish? || a.ForSession? || a.MoveFile?
    ensures Flow(Step(r, a))
  {
    hide Step, Enabled, Held, Flow, Scoped, Accounts, OnDisk, Warned, BatchShape, GoesOn;
    QuietStep(r, a);
    WriterGoesOn(r, a);
    FlowGoesOn(r, Step(r, a));
  }

  lemma FlowStep(r: Run, a: Action)
    requires Inv(r) && Enabled(r.s, a)
    ensures Flow(Step(r, a))
  {
    hide CountLines, LinesIn, LinesWith, BytesOf, AcceptedLines, LinesOf;
    match a {
      case Send(line) => FlowOfSend(r, line);
      case Count => FlowOfCall(r, a);
      case DropUnserializable(_, _) => FlowOfCall(r, a);
      case Recv => FlowOfTake(r, a);
      case Drain => FlowOfTake(r, a);
      case Settle => FlowOfSettle(r);
      case Panic => FlowOfPanic(r);
      case TakeSender => FlowOfTakeSender(r);
      case TakeWriter => FlowOfTakeWriter(r);
      case Join => FlowOfJoin(r);
      case Abandon => FlowOfAbandon(r);
      case _ => FlowOfRest(r, a);
    }
  }

  lemma AccountsOfCall(r: Run, a: Action)
    requires Inv(r) && Enabled(r.s, a) && (a.Count? || a.DropUnserializable?)
    ensures Accounts(Step(r, a))
  {
    hide CountLines, LinesIn, LinesWith;
    var q := Step(r, a);
    var c := if a.Count? then r.s.pending.value else Call(Line([], a.scope, a.handle), Unserializable);
    assert q.h == r.h.(calls := r.h.calls + [c]);
    TallyOfCall(r.h, c, WholeFile);
    forall x | x in q.s.scopes
      ensures q.s.scopes[x] == Tally(q.h, OfSession(x))
    {
      TallyOfCall(r.h, c, OfSession(x));
    }
  }

  lemma AccountsOfSettle(r: Run)
    requires Inv(r) && Enabled(r.s, Settle)
    ensures Accounts(Step(r, Settle))
  {
    hide CountLines, LinesIn, LinesWith;
    var q := Step(r, Settle);
    TallyOfBatch(r.h, r.s.phase.batch, r.s.phase.ok, WholeFile);
    CountAll(r.s.phase.batch);
    forall x | x in q.s.scopes
      ensures q.s.scopes[x] == Tally(q.h, OfSession(x))
    {
      TallyOfBatch(r.h, r.s.phase.batch, r.s.phase.ok, OfSession(x));
    }
  }

  lemma NoLines(v: View)
    ensures CountLines([], v) == 0
  {}

  lemma AccountsOfAbandon(r: Run)
    requires Inv(r) && Enabled(r.s, Abandon)
    ensures Accounts(Step(r, Abandon))
  {
    hide CountLines, LinesIn, LinesWith;
    var q := Step(r, Abandon);
    assert PendingAccepted(r.s) == [];
    NoLines(WholeFile);
    QueuedIsUncounted(r, WholeFile);
    forall x | x in q.s.scopes
      ensures q.s.scopes[x] == Tally(q.h, OfSession(x))
    {
      NoLines(OfSession(x));
      QueuedIsUncounted(r, OfSession(x));
    }
  }

  lemma {:induction false} NoCallOfOthers(calls: seq<Call>, scopes: map<Session, Counters>, k: Class, x: Session)
    requires forall i | 0 <= i < |calls| :: Known(calls[i].line.scope, scopes)
    requires x !in scopes
    ensures CountLines(LinesIn(calls, k), OfSession(x)) == 0
  {
    if calls != [] {
      var init, last := calls[..|calls| - 1], calls[|calls| - 1];
      NoCallOfOthers(init, scopes, k, x);
      assert init + [last] == calls;
      LinesInCount(init, last, k, OfSession(x));
    }
  }

  /** A session no handle was ever scoped to has no line anywhere. */
  lemma NothingOfOthers(r: Run, x: Session)
    requires Flow(r) && Scoped(r) && x !in r.s.scopes
    ensures Tally(r.h, OfSession(x)) == ZERO && CountLines(Uncounted(r.s), OfSession(x)) == 0
  {
    hide LinesIn, LinesWith;
    NoCallOfOthers(r.h.calls, r.s.scopes, IsAccepted, x);
    NoCallOfOthers(r.h.calls, r.s.scopes, IsFull, x);
    NoCallOfOthers(r.h.calls, r.s.scopes, IsDropped, x);
    AcceptedIn(r, OfSession(x));
    assert CountLines(PendingAccepted(r.s), OfSession(x)) == 0;
  }

  lemma AccountsOfOther(r: Run, a: Action)
    requires Inv(r) && Enabled(r.s, a) && !a.Count? && !a.DropUnserializable? && !a.Settle? && !a.Abandon?
    ensures Accounts(Step(r, a))
  {
    hide CountLines, LinesIn, LinesWith, BytesOf;
    var q := Step(r, a);
    assert q.h.calls == r.h.calls && q.h.settled == r.h.settled && q.h.mark == r.h.mark;
    assert q.s.file == r.s.file;
    assert forall x | x in r.s.scopes :: q.s.scopes[x] == r.s.scopes[x];
    if a.ForSession? && a.session !in r.s.scopes {
      NothingOfOthers(r, a.session);
    }
  }

  lemma AccountsStep(r: Run, a: Action)
    requires Inv(r) && Enabled(r.s, a)
    ensures Accounts(Step(r, a))
  {
    hide CountLines, LinesIn, LinesWith, BytesOf;
    match a {
      case Count => AccountsOfCall(r, a);
      case DropUnserializable(_, _) => AccountsOfCall(r, a);
      case Settle => AccountsOfSettle(r);
      case Abandon => AccountsOfAbandon(r);
      case _ => AccountsOfOther(r, a);
    }
  }

  lemma ScopedOfAbandon(r: Run)
    requires Inv(r) && Enabled(r.s, Abandon)
    ensures Scoped(Step(r, Abandon))
  {
    hide Accounts, OnDisk, Warned, BatchShape, CountLines, LinesIn, LinesWith, BytesOf, LinesOf;
    var q := Step(r, Abandon);
    assert q.h.mark.value.left == Uncounted(r.s) && q.h.mark.value.drops == Drops(r.h.calls);
    forall x | x !in q.s.scopes
      ensures CountLines(q.h.mark.value.left, OfSession(x)) == CountLines(q.h.mark.value.drops, OfSession(x)) == 0
    {
      NothingOfOthers(r, x);
    }
  }

  /** What a step other than the abandon does to sessions, calls and mark: no
      session is forgotten, and a new append's is known. */
  ghost predicate ScopesGrow(r: Run, q: Run) {
    && (forall x | x in r.s.scopes :: x in q.s.scopes) && q.h.mark == r.h.mark
    && (q.s.pending.Some? ==> q.s.pending == r.s.pending || Known(q.s.pending.value.line.scope, r.s.scopes))
    && (q.h.calls == r.h.calls
        || (q.h.calls != [] && q.h.calls[..|q.h.calls| - 1] == r.h.calls
            && Known(q.h.calls[|q.h.calls| - 1].line.scope, r.s.scopes)))
  }

  lemma ScopesStay(r: Run, a: Action)
    requires Enabled(r.s, a) && a != Abandon
    ensures ScopesGrow(r, Step(r, a))
  {
    NextKeepsScopes(r.s, a);
    RecordKeepsCalls(r, a);
    hide Next, Record, Enabled;
  }

  lemma NextKeepsScopes(s: State, a: Action)
    requires Enabled(s, a)
    ensures var t := Next(s, a);
      && (forall x | x in s.scopes :: x in t.scopes)
      && (t.pending.Some? ==> t.pending == s.pending || Known(t.pending.value.line.scope, s.scopes))
  {
    hide CountLines, BytesOf, AppendLast, Held, TrySend;
  }

  lemma RecordKeepsCalls(r: Run, a: Action)
    requires Enabled(r.s, a) && a != Abandon
    ensures var h := Record(r, a);
      && h.mark == r.h.mark
      && (h.calls == r.h.calls
          || (h.calls != [] && h.calls[..|h.calls| - 1] == r.h.calls
              && Known(h.calls[|h.calls| - 1].line.scope, r.s.scopes)))
  {
    hide BytesOf, AppendLast, Verdicts, Drops, Held, TrySend;
  }

  lemma ScopedStays(r: Run, q: Run)
    requires Scoped(r) && ScopesGrow(r, q)
    ensures Scoped(q)
  {
    hide CountLines;
    forall i | 0 <= i < |q.h.calls| ensures Known(q.h.calls[i].line.scope, q.s.scopes) {
      if i < |r.h.calls| { assert q.h.calls[i] == r.h.calls[i]; }
    }
  }

  lemma ScopedStep(r: Run, a: Action)
    requires Inv(r) && Enabled(r.s, a)
    ensures Scoped(Step(r, a))
  {
    if a == Abandon {
      ScopedOfAbandon(r);
    } else {
      hide Step, Enabled, Flow, Accounts, OnDisk, Warned, BatchShape, Scoped, ScopesGrow;
      ScopesStay(r, a);
      ScopedStays(r, Step(r, a));
    }
  }

  lemma FlattenLast<T>(files: seq<seq<T>>, more: seq<T>)
    requires files != []
    ensures Flatten(AppendLast(files, more)) == Flatten(files) + more
  {
    var init, last := files[..|files| - 1], files[|files| - 1];
    FlattenAppend(init, last + more);
    FlattenAppend(init, last);
    assert init + [last] == files;
    assert Flatten(init) + (last + more) == Flatten(init) + last + more;
  }

  lemma OnDiskOfSink(r: Run)
    requires Inv(r) && Enabled(r.s, Sink(true))
    ensures OnDisk(Step(r, Sink(true)))
  {
    hide CountLines, LinesIn, LinesWith, Flow, Scoped, Accounts, Warned;
    var q, batch, n := Step(r, Sink(true)), r.s.phase.batch, |r.s.disk| - 1;
    assert q.h.pieces == AppendLast(r.h.pieces, batch) && q.h.settled == r.h.settled;
    assert q.s.disk == AppendLast(r.s.disk, BytesOf(batch));
    FlattenLast(r.h.pieces, batch);
    assert Landed(q) == Landed(r) + batch;
    BytesConcat(r.h.pieces[n], batch);
    forall i | 0 <= i <= n
      ensures q.s.disk[i] == BytesOf(q.h.pieces[i])
    {
      assert r.s.disk[i] == BytesOf(r.h.pieces[i]);
    }
  }

  lemma OnDiskOfSettle(r: Run)
    requires Inv(r) && Enabled(r.s, Settle)
    ensures OnDisk(Step(r, Settle))
  {
    hide CountLines, LinesIn, Flow, Scoped, Accounts, Warned;
    LinesWithBatch(r.h.settled, r.s.phase.batch, r.s.phase.ok);
    assert Landed(Step(r, Settle)) == Landed(r);
  }

  lemma OnDiskOfMove(r: Run)
    requires Inv(r) && Enabled(r.s, MoveFile)
    ensures OnDisk(Step(r, MoveFile))
  {
    hide CountLines, LinesIn, LinesWith, Flow, Scoped, Accounts, Warned, BatchShape, Flatten;
    FlattenAppend(r.h.pieces, []);
    NoBytes();
  }

  lemma NoBytes()
    ensures BytesOf([]) == []
  {}

  ghost predicate SameDisk(r: Run, q: Run) {
    && q.s.disk == r.s.disk && q.h.pieces == r.h.pieces && q.h.settled == r.h.settled
    && (LandsNow(q.s.phase) || LandsNow(r.s.phase) ==> q.s.phase == r.s.phase)
  }

  lemma AppendsKeepDisk(r: Run, a: Action)
    requires Enabled(r.s, a) && (a.ForSession? || a.Send? || a.Count? || a.DropUnserializable?)
    ensures SameDisk(r, Step(r, a))
  {
    hide TrySend, Known, Counters.CountCall;
  }

  lemma WriterKeepsDisk(r: Run, a: Action)
    requires Enabled(r.s, a)
    requires a.Probe? || a.Recv? || a.Drain? || a.Seal? || a == Sink(false) || a.Finish? || a.Panic?
    ensures SameDisk(r, Step(r, a))
  {
    hide BytesOf, AppendLast;
  }

  lemma ShutdownKeepsDisk(r: Run, a: Action)
    requires Enabled(r.s, a) && (a.TakeSender? || a.TakeWriter? || a.Abandon? || a.Join?)
    ensures SameDisk(r, Step(r, a))
  {
    hide AbandonScopes, Drops, Held;
  }

  /** The steps that touch no file and no counted line. */
  lemma DiskStays(r: Run, a: Action)
    requires Enabled(r.s, a) && a != Sink(true) && a != Settle && a != MoveFile
    ensures SameDisk(r, Step(r, a))
  {
    hide Step, Enabled, SameDisk;
    match a {
      case ForSession(_) => AppendsKeepDisk(r, a);
      case Send(_) => AppendsKeepDisk(r, a);
      case Count => AppendsKeepDisk(r, a);
      case DropUnserializable(_, _) => AppendsKeepDisk(r, a);
      case TakeSender => ShutdownKeepsDisk(r, a);
      case TakeWriter => ShutdownKeepsDisk(r, a);
      case Abandon => ShutdownKeepsDisk(r, a);
      case Join => ShutdownKeepsDisk(r, a);
      case _ => WriterKeepsDisk(r, a);
    }
  }

  predicate LandsNow(phase: Phase) {
    phase.Settling? && phase.ok
  }

  lemma LandedStays(r: Run, q: Run)
    requires q.h.settled == r.h.settled
    requires LandsNow(q.s.phase) || LandsNow(r.s.phase) ==> q.s.phase == r.s.phase
    ensures Landed(q) == Landed(r)
  {
    hide LinesWith;
  }

  lemma OnDiskStep(r: Run, a: Action)
    requires Inv(r) && Enabled(r.s, a)
    ensures OnDisk(Step(r, a))
  {
    if a == Sink(true) {
      OnDiskOfSink(r);
    } else if a == Settle {
      OnDiskOfSettle(r);
    } else if a == MoveFile {
      OnDiskOfMove(r);
    } else {
      DiskStays(r, a);
      LandedStays(r, Step(r, a));
      hide Step, Enabled, Flow, Scoped, Accounts, Warned, BatchShape, Landed, BytesOf, Flatten;
    }
  }

  lemma BatchShapeStep(r: Run, a: Action)
    requires Inv(r) && Enabled(r.s, a)
    ensures BatchShape(Step(r, a).s.phase)
  {
    hide CountLines, LinesIn, LinesWith, Flow, Scoped, Accounts, OnDisk, Warned;
    if a.Drain? {
      var batch := r.s.phase.batch + [r.s.channel[0]];
      assert batch[..|batch| - 1] == r.s.phase.batch;
    }
  }

  lemma BlockStartsAppend(failures: seq<bool>, last: bool)
    ensures |BlockStarts(failures + [last])|
         == |BlockStarts(failures)|
            + (if last && (failures == [] || !failures[|failures| - 1]) then 1 else 0)
  {
    var all, n := failures + [last], |failures|;
    forall i | 0 <= i < n
      ensures StartsBlock(all, i) == StartsBlock(failures, i)
    {}
    if StartsBlock(all, n) {
      assert BlockStarts(all) == BlockStarts(failures) + {n};
    } else {
      assert BlockStarts(all) == BlockStarts(failures);
    }
  }

  lemma WarnedStep(r: Run, a: Action)
    requires Inv(r) && Enabled(r.s, a)
    ensures Warned(Step(r, a))
  {
    hide CountLines, LinesIn, LinesWith, BytesOf, Flow, Scoped, Accounts, OnDisk, BlockStarts;
    match a {
      case Probe(opens) => BlockStartsAppend(r.h.failures, !opens);
      case Settle => BlockStartsAppend(r.h.failures, !r.s.phase.ok);
      case _ =>
    }
  }

  lemma InvStep(r: Run, a: Action)
    requires Inv(r) && Enabled(r.s, a)
    ensures Inv(Step(r, a))
  {
    FlowStep(r, a);
    ScopedStep(r, a);
    AccountsStep(r, a);
    OnDiskStep(r, a);
    BatchShapeStep(r, a);
    WarnedStep(r, a);
  }

  /** The run's state after the actions, if each was enabled in its turn. */
  ghost function After(from: Run, actions: seq<Action>): (to: Option<Run>)
    ensures Inv(from) && to.Some? ==> Inv(to.value)
  {
    if actions == [] then Some(from)
    else
      var at := After(from, actions[..|actions| - 1]);
      var a := actions[|actions| - 1];
      if at.None? || !Enabled(at.value.s, a) then None
      else
        assert Inv(from) ==> Inv(Step(at.value, a)) by {
          if Inv(from) { InvStep(at.value, a); }
        }
        Some(Step(at.value, a))
  }

  lemma AfterOneMore(from: Run, actions: seq<Action>, a: Action)
    requires After(from, actions).Some? && Enabled(After(from, actions).value.s, a)
    ensures After(from, actions + [a]) == Some(Step(After(from, actions).value, a))
  {
    assert (actions + [a])[..|actions|] == actions;
  }

  /** A state of some run of some ledger. */
  ghost predicate Reachable(r: Run) {
    exists spawned: bool, actions: seq<Action> :: After(Opened(spawned), actions) == Some(r)
  }

  /** The invariant holds in every state any interleaving reaches. */
  lemma ReachableInv(r: Run)
    requires Reachable(r)
    ensures Inv(r)
  {
    OpenedInv(true);
    OpenedInv(false);
  }
}
