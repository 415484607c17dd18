/** Runs of the ledger in which its accounting is off. */
module LedgerWitnesses {
  import opened Prelude
  import opened CallLedger
  import opened LedgerInvariant
  import opened LedgerTheorems

  lemma Take(at: Run, actions: seq<Action>, a: Action) returns (to: Run)
    requires After(Opened(true), actions) == Some(at) && Enabled(at.s, a)
    ensures to == Step(at, a) && After(Opened(true), actions + [a]) == Some(to)
  {
    AfterOneMore(Opened(true), actions, a);
    to := Step(at, a);
  }

  /** A whole append: its send and its count. */
  lemma Append(before: seq<Action>, from: Run, line: Line) returns (actions: seq<Action>, r: Run)
    requires After(Opened(true), before) == Some(from) && from.s.pending.None? && Known(line.scope, from.s.scopes)
    ensures After(Opened(true), actions) == Some(r)
    ensures var outcome := TrySend(from.s);
      && r.s == CountOn(from.s, line.scope, outcome).(
                  channel := if outcome.Accepted? then from.s.channel + [line] else from.s.channel)
      && r.h == from.h.(calls := from.h.calls + [Call(line, outcome)])
  {
    hide TrySend, After, Opened;
    var mid := Take(from, before, Send(line));
    r := Take(mid, before + [Send(line)], Count);
    actions := before + [Send(line)] + [Count];
  }

  lemma CloseAndWait(before: seq<Action>, from: Run) returns (actions: seq<Action>, r: Run)
    requires After(Opened(true), before) == Some(from) && from.s.pending.None? && from.s.writer
    ensures After(Opened(true), actions) == Some(r)
    ensures r.s == from.s.(open := false, writer := false, waiting := true) && r.h == from.h
  {
    hide After, Opened;
    actions, r := before, from;
    r := Take(r, actions, TakeSender);
    actions := actions + [TakeSender];
    r := Take(r, actions, TakeWriter);
    actions := actions + [TakeWriter];
  }

  lemma Scope(before: seq<Action>, from: Run, x: Session) returns (actions: seq<Action>, r: Run)
    requires After(Opened(true), before) == Some(from) && x !in from.s.scopes
    ensures After(Opened(true), actions) == Some(r)
    ensures r.s == from.s.(scopes := from.s.scopes[x := ZERO]) && r.h == from.h
  {
    hide After, Opened;
    r := Take(from, before, ForSession(x));
    actions := before + [ForSession(x)];
  }

  /** Counters that show `accepted` lines accepted and `failed` drops. */
  predicate Shows(c: Counters, accepted: nat, failed: nat) {
    c.written == 0 && c.writeFailed == failed && c.accepted == accepted
  }

  /** Two sessions: the first appends a line, the sender is taken, and the
      second appends one. */
  lemma LateInAnother(x: Session, y: Session) returns (actions: seq<Action>, r: Run)
    requires x != y
    ensures After(Opened(true), actions) == Some(r) && r.s.waiting
    ensures Uncounted(r.s) == [Line([], Some(x), 0)] && Shows(r.s.file, 1, 1)
    ensures r.s.scopes.Keys == {x, y} && Shows(r.s.scopes[x], 1, 0) && Shows(r.s.scopes[y], 0, 1)
    ensures r.h.calls == [] + [Call(Line([], Some(x), 0), Accepted)] + [Call(Line([], Some(y), 1), NoSender)]
  {
    actions, r := FirstOfTwo(x, y);
    var first := r.s;
    hide After, Opened, CountOn, TrySend;
    actions, r := CloseAndWait(actions, r);
    var closed := r.s;
    UncountedAfterDrop(first, closed);
    actions, r := Append(actions, r, Line([], Some(y), 1));
    LateIsRefused(closed, y);
    UncountedAfterDrop(closed, r.s);
  }

  lemma FirstOfTwo(x: Session, y: Session) returns (actions: seq<Action>, r: Run)
    requires x != y
    ensures After(Opened(true), actions) == Some(r) && r.s.pending.None? && r.s.writer
    ensures Uncounted(r.s) == [Line([], Some(x), 0)] && Shows(r.s.file, 1, 0)
    ensures r.s.scopes.Keys == {x, y} && Shows(r.s.scopes[x], 1, 0) && Shows(r.s.scopes[y], 0, 0)
    ensures r.h.calls == [] + [Call(Line([], Some(x), 0), Accepted)]
  {
    r := Opened(true);
    actions := [];
    assert After(Opened(true), []) == Some(r) && r.h.calls == [] && r.s.scopes.Keys == {};
    assert r.s.open && r.s.phase == Probing && r.s.channel == [] && r.s.pending.None? && r.s.writer;
    assert Shows(r.s.file, 0, 0);
    hide After, Opened;
    actions, r := Scope(actions, r, x);
    actions, r := Scope(actions, r, y);
    assert TrySend(r.s) == Accepted;
    hide TrySend;
    actions, r := Append(actions, r, Line([], Some(x), 0));
  }

  /** A refused append of session y, in numbers. */
  lemma LateIsRefused(s: State, y: Session)
    requires y in s.scopes
    ensures !s.open ==> TrySend(s) == NoSender
    ensures var t := CountOn(s, Some(y), NoSender);
      && t.file.written == s.file.written && t.file.accepted == s.file.accepted
      && t.file.writeFailed == s.file.writeFailed + 1 && t.scopes.Keys == s.scopes.Keys
      && t.scopes[y].written == s.scopes[y].written && t.scopes[y].accepted == s.scopes[y].accepted
      && t.scopes[y].writeFailed == s.scopes[y].writeFailed + 1
      && (forall x | x in s.scopes && x != y :: t.scopes[x] == s.scopes[x])
      && t.waiting == s.waiting && t.phase == s.phase && t.channel == s.channel
  {}

  lemma UncountedAfterDrop(s: State, t: State)
    requires t.phase == s.phase && t.channel == s.channel
    ensures Uncounted(t) == Uncounted(s)
  {}

  /** An append that arrives after the sender is gone makes the abandon step
      lose a line: one line is held, none is counted as abandoned. */
  lemma LateAppendHidesAnAbandonedLine() returns (r: Run)
    ensures Reachable(r) && Enabled(r.s, Abandon)
    ensures |Uncounted(r.s)| == 1 && r.s.file.Queued() == 0
    ensures Next(r.s, Abandon).file.writeFailed == r.s.file.writeFailed
  {
    var line := Line([], None, 0);
    var actions: seq<Action> := [];
    r := Opened(true);
    actions, r := Append(actions, r, line);
    actions, r := CloseAndWait(actions, r);
    actions, r := Append(actions, r, line);
    assert r.s.channel == [line] && r.s.file == Counters(0, 0, 1, 1);
  }

  /** When the late append is another session's, the first session's line is
      counted for that session and not for the file: the sessions' failed
      writes are two, the file's are one. */
  lemma SessionsNeedNotAddUp(x: Session, y: Session) returns (r: Run)
    requires x != y
    ensures Reachable(r) && !SameSide(r.h)
    ensures r.s.scopes.Keys == {x, y} && r.s.file.writeFailed == 1
    ensures r.s.scopes[x].writeFailed == 1 && r.s.scopes[y].writeFailed == 1
    ensures r.s.file != Tally(r.h, Unscoped).Plus(SumOf(r.s.scopes, r.s.scopes.Keys))
  {
    var actions, from := LateInAnother(x, y);
    AbandonShape(from);
    hide *;
    r := Take(from, actions, Abandon);
    AbandonOf(from.s.file, 1, 1);
    AbandonOf(from.s.scopes[x], 1, 0);
    AbandonOf(from.s.scopes[y], 0, 1);
    MonusOfOne();
    MarkOfTwo(Line([], Some(x), 0), Line([], Some(y), 1), r.h);
    Reached(r, actions + [Abandon]);
    DoesNotAddUp(r);
  }

  lemma MonusOfOne()
    ensures Monus(1, 1) == 0 && Monus(1, 0) == 1 && Monus(0, 1) == 0
  {}

  lemma DoesNotAddUp(r: Run)
    requires Reachable(r) && !SameSide(r.h)
    ensures r.s.file != Tally(r.h, Unscoped).Plus(SumOf(r.s.scopes, r.s.scopes.Keys))
  {
    hide *;
    ReachableInv(r);
    SessionsSumToFile(r);
  }

  lemma Reached(r: Run, actions: seq<Action>)
    requires After(Opened(true), actions) == Some(r)
    ensures Reachable(r)
  {}

  lemma AbandonShape(from: Run)
    requires from.s.waiting
    ensures Enabled(from.s, Abandon)
    ensures var r := Step(from, Abandon);
      && r.s.file == from.s.file.AbandonQueued() && r.s.scopes.Keys == from.s.scopes.Keys
      && (forall x | x in from.s.scopes :: r.s.scopes[x] == from.s.scopes[x].AbandonQueued())
      && r.h.mark.Some? && r.h.mark.value.left == Uncounted(from.s) && r.h.mark.value.drops == Drops(from.h.calls)
  {}

  lemma AbandonOf(c: Counters, accepted: nat, failed: nat)
    requires Shows(c, accepted, failed)
    ensures c.AbandonQueued().writeFailed == failed + Monus(accepted, failed)
  {}

  /** The abandon step's record in that run. */
  lemma MarkOfTwo(first: Line, late: Line, h: History)
    requires first.scope.Some? && late.scope.Some? && first.scope != late.scope
    requires h.mark.Some? && h.mark.value.left == [first]
    requires h.mark.value.drops == Drops([] + [Call(first, Accepted)] + [Call(late, NoSender)])
    ensures !SameSide(h)
  {
    var x, y := OfSession(first.scope.value), OfSession(late.scope.value);
    DropsOfTwo(first, late);
    hide LinesIn;
    CountSingle(first, x);
    CountSingle(late, x);
    CountSingle(first, y);
    CountSingle(late, y);
    hide CountLines;
    assert x != WholeFile && y != WholeFile;
  }

  lemma DropsOfTwo(first: Line, late: Line)
    ensures Drops([] + [Call(first, Accepted)] + [Call(late, NoSender)]) == [late]
  {
    var one := [] + [Call(first, Accepted)];
    LinesInAppend([], Call(first, Accepted), IsDropped);
    LinesInAppend(one, Call(late, NoSender), IsDropped);
    NoDrops();
    hide LinesIn;
    assert LinesIn(one, IsDropped) == [] + [];
    assert [] + [] + [late] == [late];
  }

  lemma CountSingle(line: Line, v: View)
    ensures CountLines([line], v) == if InView(v, line.scope) then 1 else 0
  {
    assert [] + [line] == [line];
    CountOne([], line, v);
    NoLines(v);
  }

  lemma NoDrops()
    ensures LinesIn([], IsDropped) == []
  {}

  /** A writer that panics takes an accepted line along that nothing ever counts. */
  lemma PanickedWriterLosesALine() returns (r: Run)
    ensures Reachable(r) && Enabled(r.s, Join)
    ensures r.s.file.accepted == 1 && r.s.file.written + r.s.file.Dropped() == 0
  {
    var actions: seq<Action> := [];
    r := Opened(true);
    actions, r := Append(actions, r, Line([], None, 0));
    r := Take(r, actions, Panic);
    actions := actions + [Panic];
    actions, r := CloseAndWait(actions, r);
  }
}
