/** The call ledger of src/ledger.rs as a state machine.

    Any number of handles append lines to one bounded channel; one writer
    thread drains the channel into batches and hands each batch to a sink;
    `shutdown` drops the only sender, waits, and abandons the writer by
    arithmetic on the counters. Every action below is one atomic step, and
    the actions of different threads interleave freely. */
module CallLedger {
  import opened Prelude

  const CHANNEL_CAPACITY: nat := 1024
  const MAX_BATCH_BYTES: nat := 0x10_0000

  type Session = Text

  /** A line on its way to the writer: its bytes, the session of the handle it
      was appended through, and that handle. */
  datatype Line = Line(bytes: seq<Byte>, scope: Option<Session>, handle: nat)

  /** How `append` ended for its caller. The last three are counted alike. */
  datatype Outcome = Accepted | ChannelFull | NoSender | Disconnected | Unserializable

  datatype Call = Call(line: Line, outcome: Outcome)

  datatype Counters = Counters(written: nat, channelFull: nat, writeFailed: nat, accepted: nat) {
    function Dropped(): nat {
      channelFull + writeFailed
    }

    function Queued(): nat {
      Monus(Monus(accepted, written), writeFailed)
    }

    function AbandonQueued(): Counters {
      this.(writeFailed := writeFailed + Queued())
    }

    /** The one count an append makes. */
    function CountCall(outcome: Outcome): Counters {
      match outcome
      case Accepted => this.(accepted := accepted + 1)
      case ChannelFull => this.(channelFull := channelFull + 1)
      case NoSender | Disconnected | Unserializable => this.(writeFailed := writeFailed + 1)
    }

    /** What the writer counts for `lines` lines of a batch. */
    function CountBatch(lines: nat, ok: bool): Counters {
      if ok then this.(written := written + lines) else this.(writeFailed := writeFailed + lines)
    }

    function Plus(c: Counters): Counters {
      Counters(written + c.written, channelFull + c.channelFull,
               writeFailed + c.writeFailed, accepted + c.accepted)
    }
  }

  const ZERO := Counters(0, 0, 0, 0)

  /** Where the writer thread is. `Settling` lies between the sink's return and
      the counts; `Gone` is a thread that was never spawned or that panicked,
      with the lines its receiver took along. */
  datatype Phase =
    | Probing
    | Idle
    | Holding(batch: seq<Line>, sealed: bool)
    | Settling(batch: seq<Line>, ok: bool)
    | Finished
    | Gone(lost: seq<Line>)

  /** Lines out of the channel that the writer has not counted. */
  function Held(phase: Phase): seq<Line> {
    match phase
    case Holding(batch, _) => batch
    case Settling(batch, _) => batch
    case Gone(lost) => lost
    case _ => []
  }

  /** The shared state. `pending` is the append that holds the sender's lock
      between its `try_send` and its count. `disk` lists the files the path has
      named, the current one last. */
  datatype State = State(
    open: bool,
    pending: Option<Call>,
    channel: seq<Line>,
    phase: Phase,
    warned: bool,
    warns: nat,
    file: Counters,
    scopes: map<Session, Counters>,
    disk: seq<seq<Byte>>,
    writer: bool,
    waiting: bool)

  /** What only an observer of the whole run knows. `settled` lists the counted
      batches line by line with the sink's verdict, `pieces` the lines of each
      file in `disk`, `failures` the startup probe and then each sink result. */
  datatype History = History(
    calls: seq<Call>,
    settled: seq<Settled>,
    pieces: seq<seq<Line>>,
    failures: seq<bool>,
    mark: Option<Mark>)

  datatype Settled = Settled(line: Line, ok: bool)

  /** At the abandon step: how many lines the writer had counted, the lines it
      had not, and the drops that were counted as failed without ever being
      accepted. */
  datatype Mark = Mark(counted: nat, left: seq<Line>, drops: seq<Line>)

  datatype Run = Run(s: State, h: History)

  datatype Action =
    | ForSession(session: Session)
    | Send(line: Line)
    | Count
    | DropUnserializable(scope: Option<Session>, handle: nat)
    | Probe(opens: bool)
    | Recv
    | Drain
    | Seal
    | Sink(ok: bool)
    | Settle
    | Finish
    | Panic
    | TakeSender
    | TakeWriter
    | Abandon
    | Join
    | MoveFile

  function BytesOf(lines: seq<Line>): seq<Byte> {
    if lines == [] then [] else BytesOf(lines[..|lines| - 1]) + lines[|lines| - 1].bytes
  }

  predicate Known(scope: Option<Session>, scopes: map<Session, Counters>) {
    scope.Some? ==> scope.value in scopes
  }

  // ---------------------------------------------------------------------
  // Steps
  // ---------------------------------------------------------------------

  predicate Enabled(s: State, a: Action) {
    match a
    case ForSession(_) => true
    case Send(line) => s.pending.None? && Known(line.scope, s.scopes)
    case Count => s.pending.Some? && Known(s.pending.value.line.scope, s.scopes)
    case DropUnserializable(scope, _) => Known(scope, s.scopes)
    case Probe(_) => s.phase.Probing?
    case Recv => s.phase.Idle? && s.channel != []
    case Drain => s.phase.Holding? && !s.phase.sealed && s.channel != []
                  && |BytesOf(s.phase.batch)| < MAX_BATCH_BYTES
    case Seal => s.phase.Holding? && !s.phase.sealed
                 && (s.channel == [] || MAX_BATCH_BYTES <= |BytesOf(s.phase.batch)|)
    case Sink(_) => s.phase.Holding? && s.phase.sealed
    case Settle => s.phase.Settling?
    case Finish => s.phase.Idle? && !s.open && s.channel == []
    case Panic => s.phase.Probing? || s.phase.Idle? || s.phase.Holding?
    case TakeSender => s.pending.None?
    case TakeWriter => !s.open && s.writer
    case Abandon => s.waiting
    case Join => s.waiting && (s.phase.Finished? || s.phase.Gone?)
    case MoveFile => true
  }

  /** What `try_send` answers. */
  function TrySend(s: State): Outcome {
    if !s.open then NoSender
    else if s.phase.Gone? || s.phase.Finished? then Disconnected
    else if |s.channel| >= CHANNEL_CAPACITY then ChannelFull
    else Accepted
  }

  /** `Ledger::count`: the file's counters and the handle's session's. */
  function CountOn(s: State, scope: Option<Session>, outcome: Outcome): State
    requires Known(scope, s.scopes)
  {
    s.(file := s.file.CountCall(outcome),
       scopes := if scope.Some? then s.scopes[scope.value := s.scopes[scope.value].CountCall(outcome)] else s.scopes)
  }

  function SettleScopes(scopes: map<Session, Counters>, batch: seq<Line>, ok: bool): map<Session, Counters> {
    map x | x in scopes :: scopes[x].CountBatch(CountLines(batch, OfSession(x)), ok)
  }

  function AbandonScopes(scopes: map<Session, Counters>): map<Session, Counters> {
    map x | x in scopes :: scopes[x].AbandonQueued()
  }

  function Next(s: State, a: Action): State
    requires Enabled(s, a)
  {
    match a
    case ForSession(x) => if x in s.scopes then s else s.(scopes := s.scopes[x := ZERO])
    case Send(line) =>
      var outcome := TrySend(s);
      s.(pending := Some(Call(line, outcome)),
         channel := if outcome.Accepted? then s.channel + [line] else s.channel)
    case Count => CountOn(s, s.pending.value.line.scope, s.pending.value.outcome).(pending := None)
    case DropUnserializable(scope, _) => CountOn(s, scope, Unserializable)
    case Probe(opens) =>
      s.(phase := Idle, warned := !opens, warns := if opens then s.warns else s.warns + 1)
    case Recv => s.(phase := Holding([s.channel[0]], false), channel := s.channel[1..])
    case Drain => s.(phase := Holding(s.phase.batch + [s.channel[0]], false), channel := s.channel[1..])
    case Seal => s.(phase := Holding(s.phase.batch, true))
    case Sink(ok) =>
      s.(phase := Settling(s.phase.batch, ok),
         disk := if ok then AppendLast(s.disk, BytesOf(s.phase.batch)) else s.disk)
    case Settle =>
      s.(phase := Idle,
         file := s.file.CountBatch(|s.phase.batch|, s.phase.ok),
         scopes := SettleScopes(s.scopes, s.phase.batch, s.phase.ok),
         warned := !s.phase.ok,
         warns := if s.phase.ok || s.warned then s.warns else s.warns + 1)
    case Finish => s.(phase := Finished)
    case Panic => s.(phase := Gone(Held(s.phase) + s.channel), channel := [])
    case TakeSender => s.(open := false)
    case TakeWriter => s.(writer := false, waiting := true)
    case Abandon => s.(waiting := false, file := s.file.AbandonQueued(), scopes := AbandonScopes(s.scopes))
    case Join => s.(waiting := false)
    case MoveFile => s.(disk := s.disk + [[]])
  }

  /** Appends to the last file, creating it if there is none. */
  function AppendLast<T>(files: seq<seq<T>>, more: seq<T>): seq<seq<T>> {
    if files == [] then [more] else files[..|files| - 1] + [files[|files| - 1] + more]
  }

  function Verdicts(batch: seq<Line>, ok: bool): seq<Settled> {
    seq(|batch|, i requires 0 <= i < |batch| => Settled(batch[i], ok))
  }

  function Record(r: Run, a: Action): History
    requires Enabled(r.s, a)
  {
    var s, h := r.s, r.h;
    match a
    case Count => h.(calls := h.calls + [s.pending.value])
    case DropUnserializable(scope, handle) =>
      h.(calls := h.calls + [Call(Line([], scope, handle), Unserializable)])
    case Probe(opens) => h.(failures := h.failures + [!opens])
    case Sink(ok) => if ok then h.(pieces := AppendLast(h.pieces, s.phase.batch)) else h
    case Settle => h.(settled := h.settled + Verdicts(s.phase.batch, s.phase.ok),
                      failures := h.failures + [!s.phase.ok])
    case Abandon => h.(mark := Some(Mark(|h.settled|, Held(s.phase) + s.channel, Drops(h.calls))))
    case MoveFile => h.(pieces := h.pieces + [[]])
    case _ => h
  }

  /** `open_with_sink`: nothing is opened, the writer thread may be refused. */
  function Opened(spawned: bool): Run {
    Run(State(true, None, [], if spawned then Probing else Gone([]), false, 0, ZERO, map[], [[]], spawned, false),
        History([], [], [[]], [], None))
  }

  // ---------------------------------------------------------------------
  // Counting lines by session
  // ---------------------------------------------------------------------

  datatype View = WholeFile | Unscoped | OfSession(session: Session)

  predicate InView(v: View, scope: Option<Session>) {
    match v
    case WholeFile => true
    case Unscoped => scope.None?
    case OfSession(x) => scope == Some(x)
  }

  function CountLines(lines: seq<Line>, v: View): nat {
    if lines == [] then 0
    else CountLines(lines[..|lines| - 1], v) + (if InView(v, lines[|lines| - 1].scope) then 1 else 0)
  }

  lemma {:induction false} CountConcat(a: seq<Line>, b: seq<Line>, v: View)
    ensures CountLines(a + b, v) == CountLines(a, v) + CountLines(b, v)
  {
    if b == [] {
      assert a + b == a;
    } else {
      assert (a + b)[..|a + b| - 1] == a + b[..|b| - 1];
      CountConcat(a, b[..|b| - 1], v);
    }
  }

  lemma {:induction false} CountAll(lines: seq<Line>)
    ensures CountLines(lines, WholeFile) == |lines|
  {
    if lines != [] { CountAll(lines[..|lines| - 1]); }
  }

  lemma {:induction false} BytesConcat(a: seq<Line>, b: seq<Line>)
    ensures BytesOf(a + b) == BytesOf(a) + BytesOf(b)
  {
    if b == [] {
      assert a + b == a;
    } else {
      assert (a + b)[..|a + b| - 1] == a + b[..|b| - 1];
      BytesConcat(a, b[..|b| - 1]);
    }
  }

  /** The lines of the calls whose outcome satisfies the class, in call order. */
  datatype Class = IsAccepted | IsFull | IsDropped

  predicate InClass(k: Class, o: Outcome) {
    match k
    case IsAccepted => o.Accepted?
    case IsFull => o.ChannelFull?
    case IsDropped => !o.Accepted? && !o.ChannelFull?
  }

  function LinesIn(calls: seq<Call>, k: Class): seq<Line> {
    if calls == [] then []
    else LinesIn(calls[..|calls| - 1], k)
         + (if InClass(k, calls[|calls| - 1].outcome) then [calls[|calls| - 1].line] else [])
  }

  function Drops(calls: seq<Call>): seq<Line> {
    LinesIn(calls, IsDropped)
  }

  function LinesWith(settled: seq<Settled>, ok: bool): seq<Line> {
    if settled == [] then []
    else LinesWith(settled[..|settled| - 1], ok)
         + (if settled[|settled| - 1].ok == ok then [settled[|settled| - 1].line] else [])
  }

  function LinesOf(settled: seq<Settled>): seq<Line> {
    seq(|settled|, i requires 0 <= i < |settled| => settled[i].line)
  }

  lemma LinesInAppend(calls: seq<Call>, c: Call, k: Class)
    ensures LinesIn(calls + [c], k) == LinesIn(calls, k) + (if InClass(k, c.outcome) then [c.line] else [])
  {
    assert (calls + [c])[..|calls|] == calls;
  }

  lemma {:induction false} LinesWithBatch(settled: seq<Settled>, batch: seq<Line>, ok: bool)
    ensures LinesWith(settled + Verdicts(batch, ok), ok) == LinesWith(settled, ok) + batch
    ensures LinesWith(settled + Verdicts(batch, ok), !ok) == LinesWith(settled, !ok)
  {
    var all := settled + Verdicts(batch, ok);
    if batch == [] {
      assert all == settled;
    } else {
      var init := batch[..|batch| - 1];
      assert all[..|all| - 1] == settled + Verdicts(init, ok);
      LinesWithBatch(settled, init, ok);
      assert init + [batch[|batch| - 1]] == batch;
    }
  }

  // ---------------------------------------------------------------------
  // The invariant
  // ---------------------------------------------------------------------

  function PendingAccepted(s: State): seq<Line> {
    if s.pending.Some? && s.pending.value.outcome.Accepted? then [s.pending.value.line] else []
  }

  /** Every line the channel ever took, in acceptance order. */
  function AcceptedLines(r: Run): seq<Line> {
    LinesIn(r.h.calls, IsAccepted) + PendingAccepted(r.s)
  }

  /** Lines accepted and not counted by the writer. */
  function Uncounted(s: State): seq<Line> {
    Held(s.phase) + s.channel
  }

  function AbandonedIn(h: History, v: View): nat {
    if h.mark.None? then 0
    else Monus(CountLines(h.mark.value.left, v), CountLines(h.mark.value.drops, v))
  }

  /** What the counters of a view must read, from the history alone. */
  function Tally(h: History, v: View): Counters {
    Counters(CountLines(LinesWith(h.settled, true), v),
             CountLines(LinesIn(h.calls, IsFull), v),
             CountLines(LinesWith(h.settled, false), v) + CountLines(Drops(h.calls), v) + AbandonedIn(h, v),
             CountLines(LinesIn(h.calls, IsAccepted), v))
  }

  /** Lines the sink has taken: those counted as written, and a batch whose
      successful write is about to be counted. */
  function Landed(r: Run): seq<Line> {
    LinesWith(r.h.settled, true)
    + (if r.s.phase.Settling? && r.s.phase.ok then r.s.phase.batch else [])
  }

  ghost predicate Flow(r: Run) {
    && LinesOf(r.h.settled) + Uncounted(r.s) == AcceptedLines(r)
    && |r.s.channel| <= CHANNEL_CAPACITY
    && (!r.s.open ==> PendingAccepted(r.s) == [])
    && (r.s.phase.Finished? || r.s.phase.Gone? ==> r.s.channel == [])
    && (r.s.phase.Finished? || r.s.waiting ==> !r.s.open)
    && (r.s.waiting ==> !r.s.writer)
    && (r.h.mark.Some? ==>
          && !r.s.writer && !r.s.waiting && !r.s.open
          && r.h.mark.value.counted <= |r.h.settled|
          && AcceptedLines(r)[r.h.mark.value.counted..] == r.h.mark.value.left)
  }

  ghost predicate Scoped(r: Run) {
    && (forall i | 0 <= i < |r.h.calls| :: Known(r.h.calls[i].line.scope, r.s.scopes))
    && (r.s.pending.Some? ==> Known(r.s.pending.value.line.scope, r.s.scopes))
    && (r.h.mark.Some? ==> forall x | x !in r.s.scopes ::
            CountLines(r.h.mark.value.left, OfSession(x)) == CountLines(r.h.mark.value.drops, OfSession(x)) == 0)
  }

  ghost predicate Accounts(r: Run) {
    && r.s.file == Tally(r.h, WholeFile)
    && (forall x | x in r.s.scopes :: r.s.scopes[x] == Tally(r.h, OfSession(x)))
  }

  ghost predicate OnDisk(r: Run) {
    && |r.s.disk| == |r.h.pieces| > 0
    && Flatten(r.h.pieces) == Landed(r)
    && (forall i | 0 <= i < |r.s.disk| :: r.s.disk[i] == BytesOf(r.h.pieces[i]))
  }

  predicate BatchShape(phase: Phase) {
    phase.Holding? || phase.Settling? ==>
      && phase.batch != []
      && (|phase.batch| == 1 || |BytesOf(phase.batch[..|phase.batch| - 1])| < MAX_BATCH_BYTES)
  }

  /** The failing results that do not follow another failing result: the
      beginnings of the maximal failure blocks. */
  function BlockStarts(failures: seq<bool>): set<int> {
    set i | 0 <= i < |failures| && StartsBlock(failures, i)
  }

  predicate StartsBlock(failures: seq<bool>, i: int)
    requires 0 <= i < |failures|
  {
    failures[i] && (i == 0 || !failures[i - 1])
  }

  ghost predicate Warned(r: Run) {
    && r.s.warns == |BlockStarts(r.h.failures)|
    && (r.s.phase.Probing? ==> r.h.failures == [])
    && (!r.s.phase.Probing? && !r.s.phase.Gone? ==> r.h.failures != [])
    && r.s.warned == (r.h.failures != [] && r.h.failures[|r.h.failures| - 1])
  }

  ghost predicate Inv(r: Run) {
    && Flow(r)
    && Scoped(r)
    && Accounts(r)
    && OnDisk(r)
    && BatchShape(r.s.phase)
    && Warned(r)
  }

  ghost function Step(r: Run, a: Action): Run
    requires Enabled(r.s, a)
  {
    Run(Next(r.s, a), Record(r, a))
  }
}
