/** The objects of src/ledger.rs: counters shared between handles and writer,
    the core that all handles share, and the handles. Each method does one step
    of the machine in `CallLedger`, or a fixed sequence of steps. */
module LedgerHandles {
  import opened Prelude
  import opened CallLedger
  import opened LedgerInvariant
  import opened LedgerTheorems
  import opened JsonText
  import opened JsonRoundTrip

  class LedgerCounters {
    var written: nat
    var channelFull: nat
    var writeFailed: nat
    var accepted: nat
    /** The session these belong to; the file's belong to none. */
    ghost const owner: Option<Session>

    constructor (ghost owner: Option<Session>)
      ensures Value() == ZERO && this.owner == owner
    {
      written, channelFull, writeFailed, accepted := 0, 0, 0, 0;
      this.owner := owner;
    }

    function Value(): Counters
      reads this
    {
      Counters(written, channelFull, writeFailed, accepted)
    }

    /** The bump of one append. */
    method Bump(outcome: Outcome)
      modifies this
      ensures Value() == old(Value()).CountCall(outcome)
    {
      match outcome {
        case Accepted => accepted := accepted + 1;
        case ChannelFull => channelFull := channelFull + 1;
        case _ => writeFailed := writeFailed + 1;
      }
    }

    /** The writer's bump for some lines of a batch. */
    method BumpBatch(lines: nat, ok: bool)
      modifies this
      ensures Value() == old(Value()).CountBatch(lines, ok)
    {
      if ok {
        written := written + lines;
      } else {
        writeFailed := writeFailed + lines;
      }
    }

    /** Lines accepted and neither written nor failed, for as much as the counts tell. */
    method Queued() returns (queued: nat)
      ensures queued == Value().Queued()
    {
      queued := if accepted <= written then 0 else accepted - written;
      queued := if queued <= writeFailed then 0 else queued - writeFailed;
    }

    method AbandonQueued() returns (abandoned: nat)
      modifies this
      ensures Value() == old(Value()).AbandonQueued() && abandoned == old(Value()).Queued()
    {
      abandoned := Queued();
      writeFailed := writeFailed + abandoned;
    }
  }

  /** A line in the channel, with the counters of the session it came through. */
  datatype Queued = Queued(line: Line, scope: Option<LedgerCounters>)

  function Lines(channel: seq<Queued>): seq<Line> {
    seq(|channel|, i requires 0 <= i < |channel| => channel[i].line)
  }

  lemma LinesAppend(channel: seq<Queued>, last: Queued)
    ensures Lines(channel + [last]) == Lines(channel) + [last.line]
  {}

  /** One step of the machine, from one state to another. */
  predicate Stepped(before: State, a: Action, after: State) {
    Enabled(before, a) && after == Next(before, a)
  }

  function BumpScopes(scopes: map<Session, Counters>, scope: Option<Session>, outcome: Outcome): map<Session, Counters>
    requires Known(scope, scopes)
  {
    if scope.Some? then scopes[scope.value := scopes[scope.value].CountCall(outcome)] else scopes
  }

  lemma SendStep(s: State, line: Line, t: State)
    requires s.pending.None? && Known(line.scope, s.scopes)
    requires t == s.(pending := Some(Call(line, TrySend(s))),
                     channel := if TrySend(s).Accepted? then s.channel + [line] else s.channel)
    ensures Stepped(s, CallLedger.Send(line), t)
  {}

  lemma CountStep(s: State, t: State)
    requires s.pending.Some? && Known(s.pending.value.line.scope, s.scopes)
    requires var scope, outcome := s.pending.value.line.scope, s.pending.value.outcome;
      t == s.(pending := None, file := s.file.CountCall(outcome), scopes := BumpScopes(s.scopes, scope, outcome))
    ensures Stepped(s, CallLedger.Count, t)
  {}

  lemma DropStep(s: State, scope: Option<Session>, handle: nat, t: State)
    requires Known(scope, s.scopes)
    requires t == s.(file := s.file.CountCall(Unserializable), scopes := BumpScopes(s.scopes, scope, Unserializable))
    ensures Stepped(s, CallLedger.DropUnserializable(scope, handle), t)
  {}

  lemma ProbeStep(s: State, opens: bool, t: State)
    requires s.phase.Probing?
    requires t == s.(phase := Idle, warned := !opens, warns := if opens then s.warns else s.warns + 1)
    ensures Stepped(s, CallLedger.Probe(opens), t)
  {}

  lemma RecvStep(s: State, t: State)
    requires s.phase.Idle? && s.channel != []
    requires t == s.(phase := Holding([s.channel[0]], false), channel := s.channel[1..])
    ensures Stepped(s, CallLedger.Recv, t)
  {}

  lemma DrainStep(s: State, t: State)
    requires s.phase.Holding? && !s.phase.sealed && s.channel != [] && |BytesOf(s.phase.batch)| < MAX_BATCH_BYTES
    requires t == s.(phase := Holding(s.phase.batch + [s.channel[0]], false), channel := s.channel[1..])
    ensures Stepped(s, CallLedger.Drain, t) && Drained(s) == Drained(t)
  {}

  lemma SealStep(s: State, t: State)
    requires s.phase.Holding? && !s.phase.sealed && (s.channel == [] || MAX_BATCH_BYTES <= |BytesOf(s.phase.batch)|)
    requires t == s.(phase := Holding(s.phase.batch, true))
    ensures Stepped(s, CallLedger.Seal, t) && Drained(s) == t
  {}

  lemma SinkStep(s: State, ok: bool, t: State)
    requires s.phase.Holding? && s.phase.sealed
    requires t == s.(phase := Settling(s.phase.batch, ok),
                     disk := if ok then AppendLast(s.disk, BytesOf(s.phase.batch)) else s.disk)
    ensures Stepped(s, CallLedger.Sink(ok), t)
  {}

  lemma SettleStep(s: State, t: State)
    requires s.phase.Settling?
    requires t == s.(phase := Idle, file := s.file.CountBatch(|s.phase.batch|, s.phase.ok),
                     scopes := SettleScopes(s.scopes, s.phase.batch, s.phase.ok), warned := !s.phase.ok,
                     warns := if s.phase.ok || s.warned then s.warns else s.warns + 1)
    ensures Stepped(s, CallLedger.Settle, t)
  {}

  function SettleOne(scopes: map<Session, Counters>, line: Line, ok: bool): map<Session, Counters> {
    if line.scope.Some? && line.scope.value in scopes then
      scopes[line.scope.value := scopes[line.scope.value].CountBatch(1, ok)]
    else scopes
  }

  /** Counting the lines of a batch one by one comes to their number. */
  lemma SettleOneMore(scopes: map<Session, Counters>, batch: seq<Line>, i: nat, ok: bool)
    requires i < |batch|
    ensures SettleScopes(scopes, batch[..i + 1], ok) == SettleOne(SettleScopes(scopes, batch[..i], ok), batch[i], ok)
  {
    assert batch[..i + 1][..i] == batch[..i];
  }

  /** The sessions still to do are as they were. */
  function AbandonBut(scopes: map<Session, Counters>, todo: set<Session>): map<Session, Counters> {
    map x | x in scopes :: if x in todo then scopes[x] else scopes[x].AbandonQueued()
  }

  lemma AbandonOneMore(scopes: map<Session, Counters>, todo: set<Session>, x: Session)
    requires x in todo && todo <= scopes.Keys
    ensures AbandonBut(scopes, todo)[x := AbandonBut(scopes, todo)[x].AbandonQueued()] == AbandonBut(scopes, todo - {x})
  {}

  lemma AbandonEnds(scopes: map<Session, Counters>)
    ensures AbandonBut(scopes, scopes.Keys) == scopes && AbandonBut(scopes, {}) == AbandonScopes(scopes)
  {}

  /** What all handles of one ledger share, and the writer's own variables. */
  class Core {
    const counters: LedgerCounters
    var open: bool
    var pending: Option<Call>
    var channel: seq<Queued>
    var scopes: map<Session, LedgerCounters>
    var phase: Phase
    /** The counters of the lines the writer holds, one for each line. */
    var held: seq<Option<LedgerCounters>>
    var warned: bool
    var warns: nat
    var disk: seq<seq<Byte>>
    var writer: bool
    var waiting: bool

    constructor (spawned: bool)
      ensures Valid() && Machine() == Opened(spawned).s && fresh(counters)
    {
      counters := new LedgerCounters(None);
      open, pending, channel, scopes := true, None, [], map[];
      phase := if spawned then Probing else Gone([]);
      held, warned, warns, disk, writer, waiting := [], false, 0, [[]], spawned, false;
    }

    /** The counters a scope names. */
    predicate Aligned(line: Line, scope: Option<LedgerCounters>)
      reads this`scopes
    {
      match line.scope
      case None => scope.None?
      case Some(x) => x in scopes && scope == Some(scopes[x])
    }

    ghost predicate Valid()
      reads this`scopes, this`channel, this`held, this`phase
    {
      && counters.owner == None
      && (forall x | x in scopes :: scopes[x].owner == Some(x))
      && (forall i | 0 <= i < |channel| :: Aligned(channel[i].line, channel[i].scope))
      && |held| == |Held(phase)|
      && (forall i | 0 <= i < |held| :: Aligned(Held(phase)[i], held[i]))
    }

    function Counted(): set<LedgerCounters>
      reads this`scopes
    {
      scopes.Values + {counters}
    }

    function ScopeValues(): map<Session, Counters>
      reads this`scopes, scopes.Values
    {
      map x | x in scopes :: scopes[x].Value()
    }

    /** The machine's state. */
    function Machine(): State
      reads this, Counted()
    {
      State(open, pending, Lines(channel), phase, warned, warns, counters.Value(), ScopeValues(),
                  disk, writer, waiting)
    }

    // --- the appending side ---

    /** The counters of a session, shared by all its handles. */
    method Scope(session: Session) returns (scope: LedgerCounters)
      requires Valid()
      modifies this`scopes
      ensures Valid() && Stepped(old(Machine()), ForSession(session), Machine())
      ensures session in scopes && scope == scopes[session]
      ensures forall x | x in old(scopes) :: x in scopes && scopes[x] == old(scopes[x])
    {
      if session !in scopes {
        scope := new LedgerCounters(Some(session));
        scopes := scopes[session := scope];
      }
      scope := scopes[session];
    }

    /** `try_send` under the sender's lock. */
    method Send(line: Line, scope: Option<LedgerCounters>)
      requires Valid() && Aligned(line, scope) && pending.None?
      modifies this`channel, this`pending
      ensures Valid() && pending.Some? && pending.value.line == line
      ensures Stepped(old(Machine()), CallLedger.Send(line), Machine())
    {
      assert Known(line.scope, Machine().scopes);
      hide Stepped, Aligned, Core.Valid, Core.ScopeValues, Core.Counted, LedgerCounters.Value, TrySend,
        Lines, Known;
      var outcome := TrySendLine(line, scope);
      pending := Some(Call(line, outcome));
      assert Machine() == old(Machine()).(pending := pending, channel := Lines(channel));
      SendStep(old(Machine()), line, Machine());
    }

    /** `try_send` itself. */
    method TrySendLine(line: Line, scope: Option<LedgerCounters>) returns (outcome: Outcome)
      requires Valid() && Aligned(line, scope)
      modifies this`channel
      ensures Valid() && outcome == TrySend(old(Machine()))
      ensures Lines(channel) == if outcome.Accepted? then old(Lines(channel)) + [line] else old(Lines(channel))
    {
      hide Aligned, Core.Valid, Core.ScopeValues, Core.Counted, LedgerCounters.Value, TrySend, Lines;
      outcome := Answer();
      if outcome.Accepted? {
        Enqueue(line, scope);
      }
    }

    method Enqueue(line: Line, scope: Option<LedgerCounters>)
      requires Valid() && Aligned(line, scope)
      modifies this`channel
      ensures Valid() && Lines(channel) == old(Lines(channel)) + [line]
    {
      hide Aligned;
      LinesAppend(channel, Queued(line, scope));
      channel := channel + [Queued(line, scope)];
    }

    method Answer() returns (outcome: Outcome)
      ensures outcome == TrySend(Machine())
    {
      hide Core.ScopeValues;
      if !open {
        outcome := NoSender;
      } else if phase.Gone? || phase.Finished? {
        outcome := Disconnected;
      } else if |channel| >= CHANNEL_CAPACITY {
        outcome := ChannelFull;
      } else {
        outcome := Accepted;
      }
    }

    /** The count that ends an append, still under the lock. */
    method Count(scope: Option<LedgerCounters>)
      requires Valid() && pending.Some? && Aligned(pending.value.line, scope)
      modifies this`pending, Counted()
      ensures Valid() && pending.None?
      ensures Stepped(old(Machine()), CallLedger.Count, Machine())
    {
      hide Stepped, Lines;
      var line, outcome := pending.value.line, pending.value.outcome;
      hide BumpScopes, LedgerCounters.Value, Counters.CountCall, Core.ScopeValues;
      pending := None;
      Bump(line.scope, outcome, scope);
      assert Machine() == old(Machine()).(pending := None, file := counters.Value(), scopes := ScopeValues());
      CountStep(old(Machine()), Machine());
    }

    /** The count of a value that did not serialize; it takes no lock. */
    method Drop(ghost session: Option<Session>, ghost handle: nat, scope: Option<LedgerCounters>)
      requires Valid() && Aligned(Line([], session, handle), scope)
      modifies Counted()
      ensures Valid()
      ensures Stepped(old(Machine()), CallLedger.DropUnserializable(session, handle), Machine())
    {
      hide Stepped, Lines;
      assert Known(session, Machine().scopes);
      assert Aligned(Line([], session, 0), scope);
      hide BumpScopes, LedgerCounters.Value, Counters.CountCall, Core.ScopeValues;
      Bump(session, Unserializable, scope);
      assert Machine() == old(Machine()).(file := counters.Value(), scopes := ScopeValues());
      DropStep(old(Machine()), session, handle, Machine());
    }

    /** `Ledger::count`. */
    method Bump(ghost session: Option<Session>, outcome: Outcome, scope: Option<LedgerCounters>)
      requires Valid() && Aligned(Line([], session, 0), scope)
      modifies Counted()
      ensures Valid()
      ensures counters.Value() == old(counters.Value()).CountCall(outcome)
      ensures ScopeValues() == BumpScopes(old(ScopeValues()), session, outcome)
    {
      hide Counters.CountCall;
      counters.Bump(outcome);
      if scope.Some? {
        scope.value.Bump(outcome);
      }
    }

    // --- the writer ---

    method Probe(opens: bool)
      requires Valid() && phase.Probing?
      modifies this`phase, this`warned, this`warns
      ensures Valid() && phase.Idle? && Stepped(old(Machine()), CallLedger.Probe(opens), Machine())
    {
      hide Stepped, Aligned, Core.ScopeValues, Core.Counted, LedgerCounters.Value, Lines;
      phase, warned := Idle, !opens;
      if !opens {
        warns := warns + 1;
      }
      assert Machine() == old(Machine()).(phase := Idle, warned := warned, warns := warns);
      ProbeStep(old(Machine()), opens, Machine());
    }

    method Recv()
      requires Valid() && phase.Idle? && channel != []
      modifies this`phase, this`held, this`channel
      ensures Valid() && phase == Holding([old(channel[0].line)], false)
      ensures Stepped(old(Machine()), CallLedger.Recv, Machine())
    {
      hide Stepped, Core.ScopeValues, Core.Counted, LedgerCounters.Value;
      phase, held, channel := Holding([channel[0].line], false), [channel[0].scope], channel[1..];
      assert Machine() == old(Machine()).(phase := phase, channel := Lines(channel));
      RecvStep(old(Machine()), Machine());
    }

    /** Drains the channel into the batch until it is empty or the batch is large. */
    method DrainAll()
      requires Valid() && phase.Holding? && !phase.sealed
      modifies this`phase, this`held, this`channel
      ensures Valid() && phase.Holding? && phase.sealed
      ensures Machine() == Drained(old(Machine()))
    {
      hide Stepped, Drained, BytesOf, Aligned, Core.ScopeValues, Core.Counted, LedgerCounters.Value;
      var batch := BytesOf(phase.batch);
      while |batch| < MAX_BATCH_BYTES && channel != []
        invariant Valid() && phase.Holding? && !phase.sealed
        invariant batch == BytesOf(phase.batch)
        invariant Drained(Machine()) == Drained(old(Machine()))
        decreases |channel|
      {
        batch := batch + channel[0].line.bytes;
        Drain();
      }
      Seal();
    }

    /** The batch is complete. */
    method Seal()
      requires Valid() && phase.Holding? && !phase.sealed
      requires channel == [] || MAX_BATCH_BYTES <= |BytesOf(phase.batch)|
      modifies this`phase
      ensures Valid() && phase == Holding(old(phase.batch), true)
      ensures Stepped(old(Machine()), CallLedger.Seal, Machine()) && Drained(old(Machine())) == Machine()
    {
      hide Stepped, Drained, BytesOf, Aligned, Core.ScopeValues, Core.Counted, LedgerCounters.Value;
      phase := Holding(phase.batch, true);
      assert Machine() == old(Machine()).(phase := phase);
      SealStep(old(Machine()), Machine());
    }

    method Drain()
      requires Valid() && phase.Holding? && !phase.sealed && channel != []
      requires |BytesOf(phase.batch)| < MAX_BATCH_BYTES
      modifies this`phase, this`held, this`channel
      ensures Valid() && phase.Holding? && !phase.sealed && |channel| < old(|channel|)
      ensures BytesOf(phase.batch) == old(BytesOf(phase.batch) + channel[0].line.bytes)
      ensures Stepped(old(Machine()), CallLedger.Drain, Machine()) && Drained(old(Machine())) == Drained(Machine())
    {
      hide Stepped, Drained, Core.ScopeValues, Core.Counted, LedgerCounters.Value;
      var batch, next := phase.batch, channel[0];
      assert (batch + [next.line])[..|batch|] == batch;
      phase, held, channel := Holding(batch + [next.line], false), held + [next.scope], channel[1..];
      assert Machine() == old(Machine()).(phase := phase, channel := Lines(channel));
      DrainStep(old(Machine()), Machine());
    }

    method Sink(ok: bool)
      requires Valid() && phase.Holding? && phase.sealed
      modifies this`phase, this`disk
      ensures Valid() && phase == Settling(old(phase.batch), ok)
      ensures Stepped(old(Machine()), CallLedger.Sink(ok), Machine())
    {
      hide Stepped, Aligned, BytesOf, AppendLast, Core.ScopeValues, Core.Counted, LedgerCounters.Value, Lines;
      if ok {
        disk := AppendLast(disk, BytesOf(phase.batch));
      }
      phase := Settling(phase.batch, ok);
      assert Machine() == old(Machine()).(phase := phase, disk := disk);
      SinkStep(old(Machine()), ok, Machine());
    }

    /** Counts the batch for the file and each of its lines for its session. */
    method Settle()
      requires Valid() && phase.Settling?
      modifies this`phase, this`held, this`warned, this`warns, Counted()
      ensures Valid() && phase.Idle? && Stepped(old(Machine()), CallLedger.Settle, Machine())
    {
      hide Stepped, SettleScopes, Core.ScopeValues, Core.Counted, LedgerCounters.Value, Counters.CountBatch,
        Aligned, Lines;
      var ok := phase.ok;
      BumpAll(ok);
      phase, held := Idle, [];
      NoteResult(ok);
      assert Machine() == old(Machine()).(phase := Idle, file := counters.Value(), scopes := ScopeValues(),
                                          warned := warned, warns := warns);
      SettleStep(old(Machine()), Machine());
    }

    /** One warning for a run of failures; a success re-arms it. */
    method NoteResult(ok: bool)
      modifies this`warned, this`warns
      ensures warned == !ok && warns == if ok || old(warned) then old(warns) else old(warns) + 1
    {
      if ok {
        warned := false;
      } else {
        if !warned {
          warns := warns + 1;
        }
        warned := true;
      }
    }

    method BumpAll(ok: bool)
      requires Valid() && phase.Settling?
      modifies Counted()
      ensures Valid()
      ensures counters.Value() == old(counters.Value()).CountBatch(|phase.batch|, ok)
      ensures ScopeValues() == SettleScopes(old(ScopeValues()), phase.batch, ok)
    {
      hide SettleScopes, LedgerCounters.Value, Counters.CountBatch, Aligned;
      assert counters !in scopes.Values;
      counters.BumpBatch(|held|, ok);
      BumpHeld(ok);
    }

    method BumpHeld(ok: bool)
      requires Valid() && phase.Settling?
      modifies scopes.Values
      ensures Valid() && counters.Value() == old(counters.Value())
      ensures ScopeValues() == SettleScopes(old(ScopeValues()), phase.batch, ok)
    {
      ghost var batch := phase.batch;
      SettleNone(old(ScopeValues()), ok);
      assert batch[..0] == [];
      hide Counters.CountBatch, LedgerCounters.Value, Core.ScopeValues, SettleScopes, SettleOne;
      var i := 0;
      while i < |held|
        invariant 0 <= i <= |held|
        invariant counters.Value() == old(counters.Value())
        invariant ScopeValues() == SettleScopes(old(ScopeValues()), batch[..i], ok)
      {
        SettleOneMore(old(ScopeValues()), batch, i, ok);
        assert Aligned(batch[i], held[i]);
        BumpLine(batch[i], held[i], ok);
        i := i + 1;
      }
      assert batch[..i] == batch;
    }

    method BumpLine(ghost line: Line, scope: Option<LedgerCounters>, ok: bool)
      requires Valid() && Aligned(line, scope)
      modifies scopes.Values
      ensures counters.Value() == old(counters.Value())
      ensures ScopeValues() == SettleOne(old(ScopeValues()), line, ok)
    {
      hide Counters.CountBatch, LedgerCounters.Value;
      if scope.Some? {
        scope.value.BumpBatch(1, ok);
      }
    }

    /** One turn of the writer's loop. */
    method Round(ok: bool)
      requires Valid() && phase.Idle? && channel != []
      modifies this`phase, this`held, this`channel, this`disk, this`warned, this`warns, Counted()
      ensures Valid() && Machine() == AfterRound(old(Machine()), ok)
    {
      hide Stepped, Drained, Core.Valid, Core.Counted, Core.ScopeValues, LedgerCounters.Value;
      assert old(Machine()).channel != [];
      Recv();
      ghost var got := Machine();
      DrainAll();
      Sink(ok);
      ghost var sunk := Machine();
      Settle();
      RoundIs(old(Machine()), ok, got, sunk, Machine());
    }

    /** The writer's thread from its first act until the channel is empty: there
        it ends if no sender is left, and waits for a line otherwise. */
    method Write(opens: bool, answers: nat -> bool)
      requires Valid() && phase.Probing?
      modifies this`phase, this`held, this`channel, this`disk, this`warned, this`warns, Counted()
      ensures Valid() && channel == [] && (if open then phase.Idle? else phase.Finished?)
      ensures Stepped(old(Machine()), CallLedger.Probe(opens), AfterProbe(old(Machine()), opens))
      ensures Machine() == AfterRounds(AfterProbe(old(Machine()), opens), answers, 0)
    {
      Probe(opens);
      ghost var begun := Machine();
      assert begun == AfterProbe(old(Machine()), opens);
      hide Stepped, AfterRound, AfterRounds, Core.Valid, Core.ScopeValues, Core.Counted, LedgerCounters.Value, Lines;
      var n := 0;
      while channel != []
        invariant Valid() && phase.Idle?
        invariant AfterRounds(Machine(), answers, n) == AfterRounds(begun, answers, 0)
        decreases |channel|
      {
        AfterOneRound(Machine(), answers, n);
        Round(answers(n));
        n := n + 1;
      }
      AfterLastRound(Machine(), answers, n);
      if !open {
        Finish();
      }
    }

    /** `recv` finds neither a line nor a sender. */
    method Finish()
      requires Valid() && phase.Idle? && !open && channel == []
      modifies this`phase
      ensures Valid() && phase.Finished? && Machine() == old(Machine()).(phase := Finished)
      ensures Stepped(old(Machine()), CallLedger.Finish, Machine())
    {
      assert Machine().channel == [];
      hide Stepped, Aligned, Core.ScopeValues, Core.Counted, LedgerCounters.Value, Lines;
      phase := Finished;
      assert Machine() == old(Machine()).(phase := Finished);
      FinishStep(old(Machine()), Machine());
    }

    /** The writer's next step, whatever it is. */
    method Move(answer: bool)
      requires Valid() && !open && !phase.Finished? && !phase.Gone?
      modifies this`phase, this`held, this`channel, this`disk, this`warned, this`warns, Counted()
      ensures Valid() && Stepped(old(Machine()), WriterMove(old(Machine()), answer), Machine())
    {
      hide Stepped, Drained, BytesOf, Core.ScopeValues, Core.Counted, Core.Valid, LedgerCounters.Value;
      if phase.Probing? {
        Probe(answer);
      } else if phase.Idle? {
        if channel != [] { Recv(); } else { Finish(); }
      } else if phase.Holding? {
        if phase.sealed {
          Sink(answer);
        } else if channel != [] && |BytesOf(phase.batch)| < MAX_BATCH_BYTES {
          Drain();
        } else {
          Seal();
        }
      } else {
        Settle();
      }
    }

    /** Some of the writer's steps, as many as there are answers for. */
    method Moves(answers: seq<bool>)
      requires Valid() && !open
      modifies this`phase, this`held, this`channel, this`disk, this`warned, this`warns, Counted()
      ensures Valid() && Machine() == AfterMoves(old(Machine()), answers)
    {
      hide Stepped, Core.Counted, Core.Valid, Core.ScopeValues, AfterMoves, WriterMove, LedgerCounters.Value, Lines;
      var i := 0;
      assert answers[0..] == answers;
      while i < |answers| && !phase.Finished? && !phase.Gone?
        invariant 0 <= i <= |answers| && Valid()
        invariant AfterMoves(Machine(), answers[i..]) == AfterMoves(old(Machine()), answers)
      {
        assert answers[i..][1..] == answers[i + 1..] && answers[i..][0] == answers[i];
        ghost var before := Machine();
        Move(answers[i]);
        MovesStep(before, answers[i..], Machine());
        i := i + 1;
      }
      MovesEnd(Machine(), answers[i..]);
    }

    // --- shutdown ---

    /** Drops the sender, looks at the writer's thread `polls` times at most, lets
        it run in between, and joins it if it is done or abandons it. */
    method Shutdown(polls: nat, during: nat -> seq<bool>)
      requires Valid() && pending.None? && !waiting
      modifies this`open, this`writer, this`waiting
      modifies this`phase, this`held, this`channel, this`disk, this`warned, this`warns, Counted()
      ensures Valid() && !open && !writer && !waiting
      ensures Machine() == AfterShutdown(old(Machine()), polls, during)
    {
      hide Stepped, Waited, Core.Counted, Core.Valid, Core.ScopeValues, LedgerCounters.Value, Lines;
      open := false;
      ghost var closed := Machine();
      assert closed == old(Machine()).(open := false);
      ClosedIs(old(Machine()), closed, polls, during);
      if !writer {
        return;
      }
      writer, waiting := false, true;
      ghost var waits := Machine();
      assert waits == closed.(writer := false, waiting := true);
      WaitsIs(old(Machine()), closed, waits, polls, during);
      AwaitWriter(polls, during);
    }

    /** The polling loop with its deadline. */
    method AwaitWriter(polls: nat, during: nat -> seq<bool>)
      requires Valid() && !open && waiting
      modifies this`waiting
      modifies this`phase, this`held, this`channel, this`disk, this`warned, this`warns, Counted()
      ensures Valid() && !waiting
      ensures Machine() == Waited(old(Machine()), polls, during, 0)
    {
      hide Stepped, Waited, AfterMoves, Abandoned, Core.Counted, Core.Valid, Core.ScopeValues,
        LedgerCounters.Value, Lines;
      var poll := 0;
      while !phase.Finished? && !phase.Gone?
        invariant Valid() && waiting && poll <= polls
        invariant Waited(Machine(), polls, during, poll) == Waited(old(Machine()), polls, during, 0)
        decreases polls - poll
      {
        WaitedStep(Machine(), polls, during, poll);
        if poll == polls {
          Abandon();
          return;
        }
        Moves(during(poll));
        poll := poll + 1;
      }
      WaitedStep(Machine(), polls, during, poll);
      Join();
    }

    /** The writer's thread is done: the join is immediate. */
    method Join()
      requires Valid() && waiting && (phase.Finished? || phase.Gone?)
      modifies this`waiting
      ensures Valid() && !waiting && Machine() == old(Machine()).(waiting := false)
      ensures Stepped(old(Machine()), CallLedger.Join, Machine())
    {
      hide Stepped, Aligned, Core.ScopeValues, Core.Counted, LedgerCounters.Value, Lines;
      waiting := false;
      assert Machine() == old(Machine()).(waiting := false);
      JoinStep(old(Machine()), Machine());
    }

    /** The deadline has passed: the lines in hand are counted as failed. */
    method Abandon()
      requires Valid() && waiting
      modifies this`waiting, Counted()
      ensures Valid() && !waiting && Machine() == Abandoned(old(Machine()))
      ensures Stepped(old(Machine()), CallLedger.Abandon, Machine())
    {
      hide Stepped, AbandonScopes, Core.ScopeValues, Core.Counted, LedgerCounters.Value,
        Counters.AbandonQueued, Lines;
      AbandonAll();
      waiting := false;
      assert Machine() == old(Machine()).(waiting := false, file := counters.Value(), scopes := ScopeValues());
      AbandonStep(old(Machine()), Machine());
    }

    method AbandonAll()
      requires Valid()
      modifies Counted()
      ensures Valid()
      ensures counters.Value() == old(counters.Value()).AbandonQueued()
      ensures ScopeValues() == AbandonScopes(old(ScopeValues()))
    {
      hide Counters.AbandonQueued, LedgerCounters.Value, AbandonScopes;
      var abandoned := counters.AbandonQueued();
      AbandonSessions();
    }

    method AbandonSessions()
      requires Valid()
      modifies scopes.Values
      ensures counters.Value() == old(counters.Value())
      ensures ScopeValues() == AbandonScopes(old(ScopeValues()))
    {
      AbandonEnds(ScopeValues());
      assert ScopeValues().Keys == scopes.Keys;
      AbandonEach(ScopeValues());
    }

    method AbandonEach(ghost before: map<Session, Counters>)
      requires Valid() && before == ScopeValues() && before.Keys == scopes.Keys
      requires before == AbandonBut(before, before.Keys)
      modifies scopes.Values
      ensures counters.Value() == old(counters.Value())
      ensures ScopeValues() == AbandonBut(before, {})
    {
      hide *;
      var todo := scopes.Keys;
      while todo != {}
        invariant todo <= before.Keys
        invariant counters.Value() == old(counters.Value())
        invariant ScopeValues() == AbandonBut(before, todo)
        decreases |todo|
      {
        var x :| x in todo;
        AbandonOneMore(before, todo, x);
        AbandonOne(x);
        todo := todo - {x};
      }
    }

    method AbandonOne(session: Session)
      requires Valid() && session in scopes
      modifies scopes.Values
      ensures counters.Value() == old(counters.Value())
      ensures session in old(ScopeValues()) && ScopeValues() ==
                old(ScopeValues())[session := old(ScopeValues())[session].AbandonQueued()]
    {
      hide Counters.AbandonQueued, LedgerCounters.Value;
      var abandoned := scopes[session].AbandonQueued();
    }
  }

  lemma SettleNone(scopes: map<Session, Counters>, ok: bool)
    ensures SettleScopes(scopes, [], ok) == scopes
  {}

  /** One turn of the writer's loop: a first line, what else is queued, the sink,
      the counts. */
  function AfterRound(s: State, ok: bool): (t: State)
    requires s.phase.Idle? && s.channel != []
    ensures t.phase.Idle? && t.open == s.open && |t.channel| < |s.channel|
  {
    var sealed := Drained(Next(s, CallLedger.Recv));
    Next(Next(sealed, CallLedger.Sink(ok)), CallLedger.Settle)
  }

  function AfterProbe(s: State, opens: bool): State
    requires s.phase.Probing?
  {
    Next(s, CallLedger.Probe(opens))
  }

  /** The turns of the writer's loop until the channel is empty. */
  function AfterRounds(s: State, answers: nat -> bool, n: nat): State
    requires s.phase.Idle?
    decreases |s.channel|
  {
    if s.channel == [] then if s.open then s else Next(s, Finish)
    else AfterRounds(AfterRound(s, answers(n)), answers, n + 1)
  }

  lemma AfterOneRound(s: State, answers: nat -> bool, n: nat)
    requires s.phase.Idle? && s.channel != []
    ensures AfterRounds(s, answers, n) == AfterRounds(AfterRound(s, answers(n)), answers, n + 1)
    ensures |AfterRound(s, answers(n)).channel| < |s.channel|
  {}

  lemma AfterLastRound(s: State, answers: nat -> bool, n: nat)
    requires s.phase.Idle? && s.channel == []
    ensures AfterRounds(s, answers, n) == if s.open then s else s.(phase := Finished)
  {}

  lemma RoundIs(s: State, ok: bool, got: State, sunk: State, t: State)
    requires s.phase.Idle? && s.channel != [] && got.phase.Holding? && !got.phase.sealed
    requires Stepped(s, CallLedger.Recv, got) && Stepped(Drained(got), CallLedger.Sink(ok), sunk)
    requires Stepped(sunk, CallLedger.Settle, t)
    ensures AfterRound(s, ok) == t
  {}

  /** The state when the draining ends and the batch is sealed. */
  function Drained(s: State): (sealed: State)
    requires s.phase.Holding? && !s.phase.sealed
    ensures sealed.phase.Holding? && sealed.phase.sealed && sealed.open == s.open && |sealed.channel| <= |s.channel|
    decreases |s.channel|
  {
    if Enabled(s, Drain) then Drained(Next(s, Drain)) else Next(s, Seal)
  }

  predicate Ended(s: State) {
    s.phase.Finished? || s.phase.Gone?
  }

  /** The writer's next step. */
  function Moved(s: State, answer: bool): (t: State)
    requires !s.open && !Ended(s)
    ensures t.open == s.open && t.waiting == s.waiting && t.writer == s.writer
    ensures Stepped(s, WriterMove(s, answer), t)
  {
    Next(s, WriterMove(s, answer))
  }

  /** Its next steps, with the answers it gets from path and sink. */
  function AfterMoves(s: State, answers: seq<bool>): (t: State)
    requires !s.open
    ensures t.open == s.open && t.waiting == s.waiting && t.writer == s.writer
    decreases |answers|
  {
    if answers == [] || Ended(s) then s else AfterMoves(Moved(s, answers[0]), answers[1..])
  }

  /** `shutdown`, with what the writer does between the looks at its thread. */
  function AfterShutdown(s: State, polls: nat, during: nat -> seq<bool>): State
    requires s.pending.None? && !s.waiting
  {
    var closed := Next(s, TakeSender);
    if !closed.writer then closed else Waited(Next(closed, TakeWriter), polls, during, 0)
  }

  function Waited(s: State, polls: nat, during: nat -> seq<bool>, poll: nat): State
    requires s.waiting && !s.open && poll <= polls
    decreases polls - poll
  {
    if Ended(s) then Next(s, Join)
    else if poll == polls then Next(s, CallLedger.Abandon)
    else Waited(AfterMoves(s, during(poll)), polls, during, poll + 1)
  }

  function Abandoned(s: State): State {
    s.(waiting := false, file := s.file.AbandonQueued(), scopes := AbandonScopes(s.scopes))
  }

  lemma AbandonStep(s: State, t: State)
    requires s.waiting && t == Abandoned(s)
    ensures Stepped(s, CallLedger.Abandon, t)
  {}

  lemma JoinStep(s: State, t: State)
    requires s.waiting && Ended(s) && t == s.(waiting := false)
    ensures Stepped(s, CallLedger.Join, t)
  {}

  lemma FinishStep(s: State, t: State)
    requires s.phase.Idle? && !s.open && s.channel == [] && t == s.(phase := Finished)
    ensures Stepped(s, CallLedger.Finish, t)
  {}

  lemma MovesStep(s: State, answers: seq<bool>, t: State)
    requires !s.open && answers != [] && !Ended(s) && Stepped(s, WriterMove(s, answers[0]), t)
    ensures !t.open && AfterMoves(s, answers) == AfterMoves(t, answers[1..])
  {
    MovedIs(s, answers[0], t);
    hide Stepped, Moved, WriterMove;
  }

  lemma MovedIs(s: State, answer: bool, t: State)
    requires !s.open && !Ended(s) && Stepped(s, WriterMove(s, answer), t)
    ensures t == Moved(s, answer)
  {
    hide WriterMove;
  }

  lemma MovesEnd(s: State, answers: seq<bool>)
    requires !s.open && (answers == [] || Ended(s))
    ensures AfterMoves(s, answers) == s
  {}

  lemma ClosedIs(s: State, closed: State, polls: nat, during: nat -> seq<bool>)
    requires s.pending.None? && !s.waiting && closed == s.(open := false)
    ensures !s.writer ==> AfterShutdown(s, polls, during) == closed
  {}

  lemma WaitsIs(s: State, closed: State, waits: State, polls: nat, during: nat -> seq<bool>)
    requires s.pending.None? && !s.waiting && closed == s.(open := false) && s.writer
    requires waits == closed.(writer := false, waiting := true)
    ensures AfterShutdown(s, polls, during) == Waited(waits, polls, during, 0)
  {}

  lemma WaitedStep(s: State, polls: nat, during: nat -> seq<bool>, poll: nat)
    requires s.waiting && !s.open && poll <= polls
    ensures Waited(s, polls, during, poll)
         == if Ended(s) then s.(waiting := false)
            else if poll == polls then Abandoned(s)
            else Waited(AfterMoves(s, during(poll)), polls, during, poll + 1)
  {}

  /** One move keeps the invariant and is one step fewer ahead. */
  lemma MoveMeasure(r: Run, answer: bool) returns (q: Run)
    requires Inv(r) && !r.s.open && !Ended(r.s)
    ensures Inv(q) && !q.s.open && !q.s.phase.Gone? && q.s == Moved(r.s, answer)
    ensures Measure(q.s) < Measure(r.s)
  {
    var a := WriterMove(r.s, answer);
    WriterNeverStuck(r, answer);
    MeasureOfWriter(r, a);
    InvStep(r, a);
    WriterDoesNotVanish(r.s, a);
    hide Inv, Measure, Next, WriterMove, Enabled, IsWriters, Record;
    q := Step(r, a);
  }

  lemma WriterDoesNotVanish(s: State, a: Action)
    requires Enabled(s, a) && IsWriters(a) && !s.phase.Gone?
    ensures !Next(s, a).phase.Gone?
  {}

  /** What moves of the writer leave of its steps ahead. */
  lemma {:induction false} MovesMeasure(r: Run, answers: seq<bool>) returns (t: Run)
    requires Inv(r) && !r.s.open && !r.s.phase.Gone?
    ensures Inv(t) && !t.s.phase.Gone? && t.s == AfterMoves(r.s, answers)
    ensures t.s.phase.Finished? || Measure(t.s) + |answers| <= Measure(r.s)
    decreases |answers|
  {
    hide Inv, Measure, Moved;
    t := r;
    if answers != [] && !r.s.phase.Finished? {
      t := MoveMeasure(r, answers[0]);
      t := MovesMeasure(t, answers[1..]);
    }
  }

  lemma FinishedIsEmpty(r: Run)
    requires Inv(r) && r.s.phase.Finished?
    ensures r.s.channel == [] && Measure(r.s) == 0
  {}

  /** A writer that gets as many answers as it has steps ahead is joined, not
      abandoned, and leaves nothing in the channel. */
  lemma {:induction false} PatientShutdown(r: Run, polls: nat, during: nat -> seq<bool>, poll: nat)
    requires Inv(r) && r.s.waiting && !r.s.open && poll <= polls && !r.s.phase.Gone?
    requires Measure(r.s) <= Steps(polls, during, poll)
    ensures var t := Waited(r.s, polls, during, poll);
      t.phase.Finished? && t.channel == [] && !t.waiting
    decreases polls - poll
  {
    WaitedStep(r.s, polls, during, poll);
    if r.s.phase.Finished? {
      FinishedIsEmpty(r);
    } else if poll == polls {
      EndedWriter(r);
      assert false;
    } else {
      hide Waited, Inv, Measure;
      var t := MovesMeasure(r, during(poll));
      if t.s.phase.Finished? { FinishedIsEmpty(t); }
      PatientShutdown(t, polls, during, poll + 1);
    }
  }

  /** The state at the k-th look at the writer's thread. */
  function AtLook(s: State, during: nat -> seq<bool>, first: nat, k: nat): (t: State)
    requires !s.open && first <= k
    ensures t.open == s.open && t.waiting == s.waiting && t.writer == s.writer
    decreases k
  {
    if k == first then s else AfterMoves(AtLook(s, during, first, k - 1), during(k - 1))
  }

  lemma {:induction false} LookOneLater(s: State, during: nat -> seq<bool>, first: nat, k: nat)
    requires !s.open && first < k
    ensures AtLook(s, during, first, k) == AtLook(AfterMoves(s, during(first)), during, first + 1, k)
    decreases k
  {
    hide AfterMoves;
    if k > first + 1 { LookOneLater(s, during, first, k - 1); }
  }

  lemma {:induction false} EndedAtEachLook(s: State, during: nat -> seq<bool>, first: nat, k: nat)
    requires !s.open && first <= k && Ended(s)
    ensures AtLook(s, during, first, k) == s
    decreases k
  {
    if k > first { EndedAtEachLook(s, during, first, k - 1); }
  }

  lemma {:induction false} WaitedIsLastLook(s: State, polls: nat, during: nat -> seq<bool>, poll: nat)
    requires s.waiting && !s.open && poll <= polls
    ensures var last := AtLook(s, during, poll, polls);
      Waited(s, polls, during, poll) == if Ended(last) then last.(waiting := false) else Abandoned(last)
    decreases polls - poll
  {
    WaitedStep(s, polls, during, poll);
    if Ended(s) {
      EndedAtEachLook(s, during, poll, polls);
    } else if poll < polls {
      hide Waited, AfterMoves, Abandoned, Ended;
      LookOneLater(s, during, poll, polls);
      WaitedIsLastLook(AfterMoves(s, during(poll)), polls, during, poll + 1);
    }
  }

  /** A shutdown closes the ledger; if there is a writer whose thread has not been
      taken yet, it is joined when the last look finds it ended, with no counter
      touched, and otherwise each view's failed writes take in what its gauge reads. */
  lemma ShutdownMeans(s: State, polls: nat, during: nat -> seq<bool>)
    requires s.pending.None? && !s.waiting
    ensures var t := AfterShutdown(s, polls, during);
      if !s.writer then t == s.(open := false)
      else
        var last := AtLook(s.(open := false, writer := false, waiting := true), during, 0, polls);
        && !t.open && !t.writer && !t.waiting
        && t.channel == last.channel && t.phase == last.phase && t.disk == last.disk
        && t.scopes.Keys == last.scopes.Keys
        && if last.phase.Finished? || last.phase.Gone? then t.file == last.file && t.scopes == last.scopes
           else GivenUp(last.file, t.file) && forall x | x in last.scopes :: GivenUp(last.scopes[x], t.scopes[x])
  {
    if s.writer {
      var waits := s.(open := false, writer := false, waiting := true);
      WaitedIsLastLook(waits, polls, during, 0);
      WaitsIs(s, s.(open := false), waits, polls, during);
      hide AfterShutdown, Waited, AtLook;
    }
  }

  /** Accepted lines that are neither written nor failed are counted as failed. */
  predicate GivenUp(before: Counters, after: Counters) {
    var lines := before.accepted - before.written - before.writeFailed;
    after == Counters(before.written, before.channelFull,
                      if lines > 0 then before.writeFailed + lines else before.writeFailed, before.accepted)
  }

  function Steps(polls: nat, during: nat -> seq<bool>, poll: nat): nat
    decreases polls - poll
  {
    if poll >= polls then 0 else |during(poll)| + Steps(polls, during, poll + 1)
  }

  // ---------------------------------------------------------------------
  // Handles
  // ---------------------------------------------------------------------

  /** A handle, scoped to a session or not. `id` only tells handles apart. */
  class Ledger {
    const core: Core
    const session: Option<Session>
    const scope: Option<LedgerCounters>
    const id: nat

    constructor (core: Core, session: Option<Session>, scope: Option<LedgerCounters>, id: nat)
      ensures this.core == core && this.session == session && this.scope == scope && this.id == id
    {
      this.core, this.session, this.scope, this.id := core, session, scope, id;
    }

    ghost predicate Valid()
      reads core
    {
      core.Valid() && core.Aligned(Line([], session, id), scope)
    }

    /** Another handle onto the same ledger; every handle onto a session shares
        the session's counters, and scoping again replaces the scope. */
    method ForSession(session: Session, id: nat) returns (handle: Ledger)
      requires Valid()
      modifies core`scopes
      ensures Valid() && handle.Valid() && handle.core == core && handle.session == Some(session) && handle.id == id
      ensures Stepped(old(core.Machine()), CallLedger.ForSession(session), core.Machine())
    {
      hide Stepped;
      var counters := core.Scope(session);
      handle := new Ledger(core, Some(session), Some(counters), id);
    }

    /** The session's counters, or the file's for an unscoped handle. */
    method SessionCounters() returns (counters: LedgerCounters)
      requires Valid()
      ensures counters.Value() == if session.None? then core.Machine().file else core.Machine().scopes[session.value]
    {
      counters := if scope.Some? then scope.value else core.counters;
    }

    /** The line that a value becomes on this handle. */
    function LineOf(value: Json): Line {
      Line(Print(Stamped(value, session)) + ['\n'], session, id)
    }

    /** An append. A value that does not serialize is dropped and counted. */
    method Append(value: Json, serializes: bool)
      requires Valid() && core.pending.None?
      modifies core`channel, core`pending, core.Counted()
      ensures Valid() && core.pending.None?
      ensures if serializes then
                exists mid :: Stepped(old(core.Machine()), CallLedger.Send(LineOf(value)), mid)
                           && Stepped(mid, CallLedger.Count, core.Machine())
              else Stepped(old(core.Machine()), CallLedger.DropUnserializable(session, id), core.Machine())
    {
      hide Stepped, Print, Stamped;
      if !serializes {
        hide Core.Machine, Core.Valid, Core.Counted;
        core.Drop(session, id, scope);
        return;
      }
      var bytes := LineBytes(value, session);
      var line := Line(bytes, session, id);
      assert line == LineOf(value);
      assert core.Machine() == old(core.Machine());
      hide Core.Machine, Core.Valid, Core.Counted;
      assert core.Aligned(line, scope);
      core.Send(line, scope);
      ghost var mid := core.Machine();
      core.Count(scope);
      assert Stepped(old(core.Machine()), CallLedger.Send(LineOf(value)), mid);
    }
  }
}
