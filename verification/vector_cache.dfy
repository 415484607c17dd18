/** The cache objects of eval_measure and eval_fusion, over a shared file and an
    embedder whose failures are an arbitrary script. */
module VectorCache {
  import opened Prelude
  import opened CacheKey

  // ---------------------------------------------------------------------
  // The surroundings: file and embedder
  // ---------------------------------------------------------------------

  /** The cache file. How its writes end is given by `outcomes`. */
  class CacheFile {
    var disk: Disk
    var writes: nat
    const outcomes: nat -> Outcome

    constructor (disk: Disk, outcomes: nat -> Outcome)
      ensures this.disk == disk && this.outcomes == outcomes && writes == 0
    {
      this.disk := disk;
      this.outcomes := outcomes;
      writes := 0;
    }

    method Append(line: Line) returns (ok: bool)
      modifies this
      ensures disk == Written(old(disk), line, if ok then Full else outcomes(old(writes)))
      ensures ok == outcomes(old(writes)).Full?
      ensures writes == old(writes) + 1
    {
      ok := outcomes(writes).Full?;
      disk := Written(disk, line, outcomes(writes));
      writes := writes + 1;
    }
  }

  /** An embedder. `sizes` gives the number of answers of each call and `fails`
      the texts, counted over all calls, that it refuses. */
  class Embedder {
    const world: World
    const contract: Sized
    const capacity: nat
    const sizes: nat -> nat
    const fails: nat -> bool
    var calls: nat
    /** Everything asked so far, and how many texts of batches got no answer. */
    var asked: seq<(Role, Sized)>
    var unanswered: nat

    constructor (world: World, contract: Sized, capacity: nat, sizes: nat -> nat, fails: nat -> bool)
      ensures this.world == world && this.contract == contract && this.capacity == capacity
      ensures this.sizes == sizes && this.fails == fails
      ensures calls == 0 && asked == [] && unanswered == 0
    {
      this.world, this.contract, this.capacity, this.sizes, this.fails := world, contract, capacity, sizes, fails;
      calls, asked, unanswered := 0, [], 0;
    }

    /** What it answers to the text at position `n` of everything asked. */
    function Answer(role: Role, text: Sized, n: nat): Option<Vector> {
      if fails(n) then None else Some(world.vector(contract, role, text))
    }

    method Embed(role: Role, text: Sized) returns (answer: Option<Vector>)
      modifies this
      ensures answer.Some? ==> answer.value == world.vector(contract, role, text)
      ensures asked == old(asked) + [(role, text)] && unanswered == old(unanswered) && calls == old(calls)
      ensures answer.None? <==> fails(old(|asked|))
    {
      answer := Answer(role, text, |asked|);
      asked := asked + [(role, text)];
    }

    method EmbedBatch(chunk: seq<Sized>) returns (answers: seq<Option<Vector>>)
      modifies this
      ensures forall i | 0 <= i < |answers| && i < |chunk| && answers[i].Some? ::
                answers[i].value == world.vector(contract, Doc, chunk[i])
      ensures forall i | 0 <= i < |answers| && i < |chunk| :: answers[i].None? <==> fails(old(|asked|) + i)
      ensures asked == old(asked) + As(Doc, chunk)
      ensures |answers| == sizes(old(calls)) && calls == old(calls) + 1
      ensures unanswered == old(unanswered) + Monus(|chunk|, |answers|)
    {
      var n, c, w, before := |asked|, contract, world, fails;
      answers := seq(sizes(calls), i requires 0 <= i =>
        if i < |chunk| && !before(n + i) then Some(w.vector(c, Doc, chunk[i])) else None);
      calls := calls + 1;
      asked := asked + As(Doc, chunk);
      unanswered := unanswered + Monus(|chunk|, |answers|);
    }
  }

  function As(role: Role, texts: seq<Sized>): (r: seq<(Role, Sized)>)
    ensures |r| == |texts|
  {
    seq(|texts|, i requires 0 <= i < |texts| => (role, texts[i]))
  }

  // ---------------------------------------------------------------------
  // What a run still has to embed
  // ---------------------------------------------------------------------

  /** The texts that neither map holds, each once, in order. */
  function Missing(w: World, c: Sized, role: Role, texts: seq<Sized>,
                   known: map<Sized, Vector>, stored: map<Text, Vector>): seq<Sized>
  {
    if texts == [] then []
    else
      var before := Missing(w, c, role, texts[..|texts| - 1], known, stored);
      var t := texts[|texts| - 1];
      if t in known || t in before || w.Key(c, role, t) in stored then before else before + [t]
  }

  lemma {:induction false} MissingAre(w: World, c: Sized, role: Role, texts: seq<Sized>,
                                      known: map<Sized, Vector>, stored: map<Text, Vector>)
    ensures forall t :: t in Missing(w, c, role, texts, known, stored) <==>
              t in texts && t !in known && w.Key(c, role, t) !in stored
    ensures Distinct(Missing(w, c, role, texts, known, stored))
  {
    if texts != [] {
      MissingAre(w, c, role, texts[..|texts| - 1], known, stored);
      assert texts == texts[..|texts| - 1] + [texts[|texts| - 1]];
    }
  }

  predicate NoLonger(a: Sized, b: Sized) {
    |a| <= |b|
  }

  /** The stable sort by length that keeps the padding of a batch small. */
  function ByLength(texts: seq<Sized>): seq<Sized> {
    SortBy(texts, NoLonger)
  }

  predicate Ascending(texts: seq<Sized>) {
    forall i, j | 0 <= i <= j < |texts| :: |texts[i]| <= |texts[j]|
  }

  lemma ByLengthSorts(texts: seq<Sized>)
    ensures Ascending(ByLength(texts))
    ensures forall t :: t in ByLength(texts) <==> t in texts
    ensures Distinct(texts) <==> Distinct(ByLength(texts))
  {
    SortBySorts(texts, NoLonger);
    SortByPermutes(texts, NoLonger);
    PermutedIsDistinct(ByLength(texts), texts);
    hide SortBy;
    var r := ByLength(texts);
    assert forall i, j | 0 <= i <= j < |r| :: NoLonger(r[i], r[j]);
  }

  /** The texts of some length, in their order. */
  function OfLength(texts: seq<Sized>, n: nat): seq<Sized> {
    if texts == [] then []
    else
      var last := texts[|texts| - 1];
      OfLength(texts[..|texts| - 1], n) + if |last| == n then [last] else []
  }

  lemma OfLengthOneMore(texts: seq<Sized>, t: Sized, n: nat)
    ensures OfLength(texts + [t], n) == OfLength(texts, n) + if |t| == n then [t] else []
  {
    assert (texts + [t])[..|texts|] == texts;
  }

  lemma {:induction false} InsertKeepsOrder(texts: seq<Sized>, t: Sized, n: nat)
    ensures OfLength(InsertBy(texts, t, NoLonger), n) == OfLength(texts + [t], n)
  {
    if texts != [] && !NoLonger(texts[|texts| - 1], t) {
      var init, last := texts[..|texts| - 1], texts[|texts| - 1];
      assert texts == init + [last];
      InsertKeepsOrder(init, t, n);
      hide OfLength, InsertBy;
      InsertByStep(texts, t);
      OfLengthOneMore(InsertBy(init, t, NoLonger), last, n);
      OfLengthOneMore(init, t, n);
      OfLengthOneMore(texts, t, n);
      OfLengthOneMore(init, last, n);
    }
  }

  lemma InsertByStep(texts: seq<Sized>, t: Sized)
    requires texts != [] && !NoLonger(texts[|texts| - 1], t)
    ensures InsertBy(texts, t, NoLonger)
         == InsertBy(texts[..|texts| - 1], t, NoLonger) + [texts[|texts| - 1]]
  {}

  /** The sort is stable: texts of one length keep their order. */
  lemma {:induction false} ByLengthIsStable(texts: seq<Sized>, n: nat)
    ensures OfLength(ByLength(texts), n) == OfLength(texts, n)
  {
    if texts != [] {
      var init, last := texts[..|texts| - 1], texts[|texts| - 1];
      assert texts == init + [last];
      ByLengthIsStable(init, n);
      InsertKeepsOrder(ByLength(init), last, n);
      OfLengthOneMore(ByLength(init), last, n);
      OfLengthOneMore(init, last, n);
      hide OfLength;
    }
  }

  /** The texts a call of `Docs` has to embed, in the order it embeds them. */
  function Todo(w: World, c: Sized, texts: seq<Sized>, byLength: bool,
                docs: map<Sized, Vector>, stored: map<Text, Vector>): seq<Sized> {
    var missing := Missing(w, c, Doc, texts, docs, stored);
    if byLength then ByLength(missing) else missing
  }

  function Entries(w: World, c: Sized, asked: seq<(Role, Sized)>): (r: seq<Line>)
    ensures |r| == |asked|
  {
    seq(|asked|, i requires 0 <= i < |asked| => EntryFor(w, c, asked[i].0, asked[i].1))
  }

  lemma EntriesAppend(w: World, c: Sized, role: Role, texts: seq<Sized>, t: Sized)
    ensures As(role, texts + [t]) == As(role, texts) + [(role, t)]
    ensures Entries(w, c, As(role, texts + [t])) == Entries(w, c, As(role, texts)) + [EntryFor(w, c, role, t)]
  {}

  /** How far the search for missing texts is, after some texts. */
  ghost predicate Listed(w: World, c: Sized, texts: seq<Sized>, before: map<Sized, Vector>, stored: map<Text, Vector>,
                         docs: map<Sized, Vector>, todo: seq<Sized>, seen: set<Sized>)
  {
    && todo == Missing(w, c, Doc, texts, before, stored)
    && (forall t :: t in docs <==> t in before || (t in texts && w.Key(c, Doc, t) in stored))
    && (forall t :: t in seen <==> t in todo || (t in docs && t !in before))
    && (forall t | t in todo :: w.Key(c, Doc, t) !in stored)
  }

  lemma ListedOneMore(w: World, c: Sized, texts: seq<Sized>, i: nat, before: map<Sized, Vector>,
                      stored: map<Text, Vector>, docs: map<Sized, Vector>, todo: seq<Sized>, seen: set<Sized>,
                      v: Vector)
    requires i < |texts| && Listed(w, c, texts[..i], before, stored, docs, todo, seen)
    ensures var t := texts[i];
      && (t in docs || t in seen ==> Listed(w, c, texts[..i + 1], before, stored, docs, todo, seen))
      && (t !in docs && t !in seen && w.Key(c, Doc, t) in stored ==>
            Listed(w, c, texts[..i + 1], before, stored, docs[t := v], todo, seen + {t}))
      && (t !in docs && t !in seen && w.Key(c, Doc, t) !in stored ==>
            Listed(w, c, texts[..i + 1], before, stored, docs, todo + [t], seen + {t}))
  {
    hide World.Key;
    assert texts[..i + 1][..i] == texts[..i];
    assert texts[..i + 1] == texts[..i] + [texts[i]];
  }

  lemma ListedAll(w: World, c: Sized, texts: seq<Sized>, before: map<Sized, Vector>, stored: map<Text, Vector>,
                  docs: map<Sized, Vector>, todo: seq<Sized>, seen: set<Sized>)
    requires Listed(w, c, texts[..|texts|], before, stored, docs, todo, seen)
    ensures todo == Missing(w, c, Doc, texts, before, stored)
    ensures forall t :: t in docs <==> t in before || (t in texts && w.Key(c, Doc, t) in stored)
  {
    assert texts[..|texts|] == texts;
  }

  lemma MissingOneMore(w: World, c: Sized, role: Role, texts: seq<Sized>, i: nat,
                       known: map<Sized, Vector>, stored: map<Text, Vector>)
    requires i < |texts|
    ensures texts[..i + 1] == texts[..i] + [texts[i]]
    ensures var before := Missing(w, c, role, texts[..i], known, stored);
      Missing(w, c, role, texts[..i + 1], known, stored)
      == if texts[i] in known || texts[i] in texts[..i] || w.Key(c, role, texts[i]) in stored then before
         else before + [texts[i]]
  {
    assert texts[..i + 1][..i] == texts[..i];
    MissingAre(w, c, role, texts[..i], known, stored);
  }

  lemma EntriesOfNone(w: World, c: Sized)
    ensures Entries(w, c, []) == [] && forall role :: As(role, []) == []
    ensures forall disk :: WrittenAll(disk, []) == disk
  {}

  lemma NextChunk(w: World, c: Sized, todo: seq<Sized>, from: nat, next: nat)
    requires from <= next <= |todo|
    ensures todo[..next] == todo[..from] + todo[from..next]
    ensures As(Doc, todo[..next]) == As(Doc, todo[..from]) + As(Doc, todo[from..next])
    ensures Entries(w, c, As(Doc, todo[..next]))
         == Entries(w, c, As(Doc, todo[..from])) + Entries(w, c, As(Doc, todo[from..next]))
    ensures Distinct(todo) ==> Distinct(todo[from..next]) && forall t | t in todo[from..next] :: t !in todo[..from]
  {}

  predicate Appended(before: Option<Disk>, after: Option<Disk>, lines: seq<Line>) {
    if before.None? then after.None? else after == Some(WrittenAll(before.value, lines))
  }

  /** The file of a run that is interrupted: the entries of the first k texts are
      written, and some or none of the next. */
  function Interrupted(w: World, c: Sized, role: Role, disk: Disk, todo: seq<Sized>, k: nat, outcome: Outcome): Disk
    requires k <= |todo|
  {
    var before := WrittenAll(disk, Entries(w, c, As(role, todo[..k])));
    if k == |todo| then before else Written(before, EntryFor(w, c, role, todo[k]), outcome)
  }

  /** The file, if there is one, is that of a run interrupted somewhere. */
  ghost predicate Halted(w: World, c: Sized, role: Role, todo: seq<Sized>,
                          before: Option<Disk>, after: Option<Disk>)
  {
    if before.None? then after.None?
    else
      exists k: nat, outcome ::
        k <= |todo| && after == Some(Interrupted(w, c, role, before.value, todo, k, outcome))
  }

  lemma HaltedAt(w: World, c: Sized, role: Role, todo: seq<Sized>, k: nat, outcome: Outcome,
                 before: Option<Disk>, between: Option<Disk>, after: Option<Disk>)
    requires k < |todo| && Appended(before, between, Entries(w, c, As(role, todo[..k])))
    requires if between.None? then after.None?
             else after == Some(Written(between.value, EntryFor(w, c, role, todo[k]), outcome))
    ensures Halted(w, c, role, todo, before, after)
  {
    hide Entries, As, WrittenAll, Written, EntryFor;
    if before.Some? {
      assert after == Some(Interrupted(w, c, role, before.value, todo, k, outcome));
    }
  }

  /** A batch that is interrupted, behind batches that are not. */
  lemma HaltedLater(w: World, c: Sized, todo: seq<Sized>, from: nat, next: nat,
                    before: Option<Disk>, between: Option<Disk>, after: Option<Disk>)
    requires from <= next <= |todo| && Appended(before, between, Entries(w, c, As(Doc, todo[..from])))
    requires Halted(w, c, Doc, todo[from..next], between, after)
    ensures Halted(w, c, Doc, todo, before, after)
  {
    if before.Some? {
      var chunk := todo[from..next];
      var k: nat, outcome :| k <= |chunk|
        && after == Some(Interrupted(w, c, Doc, between.value, chunk, k, outcome));
      InterruptedLater(w, c, before.value, todo, from, next, k, outcome);
    }
  }

  lemma InterruptedLater(w: World, c: Sized, disk: Disk, todo: seq<Sized>, from: nat, next: nat,
                         k: nat, outcome: Outcome)
    requires from <= next <= |todo| && k <= next - from
    ensures Interrupted(w, c, Doc, WrittenAll(disk, Entries(w, c, As(Doc, todo[..from]))), todo[from..next], k, outcome)
         == Interrupted(w, c, Doc, disk, todo, from + k, if k == next - from then Nothing else outcome)
  {
    WrittenNothing();
    hide Entries, As, WrittenAll, Written, EntryFor, Distinct;
    var chunk := todo[from..next];
    assert chunk[..k] == todo[from..from + k];
    NextChunk(w, c, todo, from, from + k);
    WrittenInTwo(disk, Entries(w, c, As(Doc, todo[..from])), Entries(w, c, As(Doc, chunk[..k])));
    assert k < |chunk| ==> chunk[k] == todo[from + k];
  }

  // ---------------------------------------------------------------------
  // eval_measure's cache
  // ---------------------------------------------------------------------

  datatype Failure = UnreadableFile | EmbeddingFailed | WriteFailed | ShortBatch

  /** How much has been asked, written and left unanswered. */
  datatype Progress = Progress(asked: nat, writes: nat, unanswered: nat)

  class Cache {
    const embedder: Embedder
    var docs: map<Sized, Vector>
    var queries: map<Sized, Vector>
    var done: nat
    var stored: map<Text, Vector>
    var file: Option<CacheFile>

    constructor (embedder: Embedder)
      ensures this.embedder == embedder && docs == map[] && queries == map[] && done == 0
      ensures stored == map[] && file == None
    {
      this.embedder := embedder;
      docs, queries, done, stored, file := map[], map[], 0, map[], None;
    }

    /** Every vector in memory is the embedder's. */
    ghost predicate Valid()
      reads this
    {
      && embedder.world.Fair()
      && Holds(embedder.world, embedder.contract, Doc, docs)
      && Holds(embedder.world, embedder.contract, Query, queries)
      && ServesRight(embedder.world, embedder.contract, stored)
    }

    function Files(): set<object>
      reads this
    {
      if file.Some? then {file.value} else {}
    }

    /** No write to the file fails. */
    ghost predicate Writes()
      reads this`file
    {
      file.Some? ==> forall n :: file.value.outcomes(n).Full?
    }

    /** The embedder refuses no text, and no write to the file fails. */
    ghost predicate NothingFails()
      reads this`file
    {
      Writes() && forall n :: !embedder.fails(n)
    }

    function OnDisk(): Option<Disk>
      reads this, Files()
    {
      if file.Some? then Some(file.value.disk) else None
    }

    /** How many lines were handed to the file. */
    function WritesDone(): nat
      reads this, Files()
    {
      if file.Some? then file.value.writes else 0
    }

    function SoFar(): Progress
      reads this, Files(), embedder
    {
      Progress(|embedder.asked|, WritesDone(), embedder.unanswered)
    }

    /** Things have only grown since they were so far. */
    predicate Onward(since: Progress)
      reads this, Files(), embedder
    {
      since.asked <= |embedder.asked| && since.writes <= WritesDone() && since.unanswered <= embedder.unanswered
    }

    /** The last line handed to the file, since so many, was not written whole. */
    predicate WriteBroke(writes: nat)
      reads this, Files()
    {
      file.Some? && writes < WritesDone() && !file.value.outcomes(WritesDone() - 1).Full?
    }

    /** Why a call failed: the embedder refused a text it was asked, or the last
        line handed to the file was not written whole, or a batch was answered short. */
    ghost predicate FailedBecause(error: Failure, since: Progress)
      reads this, Files(), embedder
    {
      match error
      case EmbeddingFailed => exists n: nat :: since.asked <= n < |embedder.asked| && embedder.fails(n)
      case WriteFailed => WriteBroke(since.writes)
      case ShortBatch => since.unanswered < embedder.unanswered
      case UnreadableFile => false
    }

    lemma FailedSince(error: Failure, since: Progress, later: Progress)
      requires FailedBecause(error, later)
      requires since.asked <= later.asked && since.writes <= later.writes && since.unanswered <= later.unanswered
      ensures FailedBecause(error, since)
    {}

    /** Lines are only added to the file, and only right ones. */
    twostate predicate FileGrew()
      reads this, if file.Some? then {file.value} else {}
    {
      && file == old(file)
      && (file.Some? ==> Grew(embedder.world, old(file.value.disk), file.value.disk))
    }

    method Open(f: CacheFile) returns (r: Result<(), Failure>)
      modifies this
      ensures docs == old(docs) && queries == old(queries) && done == old(done)
      ensures r.Err? <==> exists line :: line in f.disk.Readable() && line.NotText?
      ensures r.Ok? && old(stored) == map[] ==> stored == Load(f.disk.Readable(), None)
      ensures file == if r.Ok? then Some(f) else old(file)
    {
      var lines := f.disk.Readable();
      var i := 0;
      while i < |lines|
        invariant 0 <= i <= |lines|
        invariant forall j | 0 <= j < i :: !lines[j].NotText?
        invariant old(stored) == map[] ==> stored == Load(lines[..i], None)
        invariant docs == old(docs) && queries == old(queries) && done == old(done) && file == old(file)
      {
        if lines[i].NotText? {
          return Err(UnreadableFile);
        }
        assert lines[..i + 1][..i] == lines[..i];
        if lines[i].Entry? {
          stored := stored[lines[i].key := lines[i].v];
        }
        i := i + 1;
      }
      assert lines[..i] == lines;
      file := Some(f);
      return Ok(());
    }

    method Recall(role: Role, text: Sized) returns (v: Option<Vector>)
      ensures v == var key := embedder.world.Key(embedder.contract, role, text);
                   if key in stored then Some(stored[key]) else None
      ensures Valid() && v.Some? ==> v.value == embedder.world.vector(embedder.contract, role, text)
    {
      var key := embedder.world.Key(embedder.contract, role, text);
      v := if key in stored then Some(stored[key]) else None;
    }

    method Keep(role: Role, text: Sized, v: Vector) returns (ok: bool)
      requires embedder.world.Fair()
      requires v == embedder.world.vector(embedder.contract, role, text)
      modifies Files()
      ensures FileGrew()
      ensures Writes() ==> ok
      ensures file.Some? ==>
        file.value.disk == Written(old(file.value.disk), EntryFor(embedder.world, embedder.contract, role, text),
                             if ok then Full else file.value.outcomes(old(file.value.writes)))
      ensures WritesDone() == old(WritesDone()) + (if file.Some? then 1 else 0)
      ensures ok <==> file.Some? ==> file.value.outcomes(old(WritesDone())).Full?
    {
      EntryForIsRight(embedder.world, embedder.contract, role, text);
      ok := true;
      if file.Some? {
        var line := Entry(embedder.world.Key(embedder.contract, role, text), v);
        ok := file.value.Append(line);
      }
    }

    method Docs(texts: seq<Sized>, byLength: bool) returns (r: Result<(), Failure>)
      requires Valid()
      modifies this`docs, this`done, Files(), embedder
      ensures Valid() && FileGrew() && old(docs).Keys <= docs.Keys
      ensures NothingFails() ==> r.Ok?
      ensures Onward(old(SoFar())) && (r.Err? ==> !r.error.ShortBatch? && FailedBecause(r.error, old(SoFar())))
      ensures var todo := Todo(embedder.world, embedder.contract, texts, byLength, old(docs), stored);
        r.Ok? ==>
          && embedder.unanswered == old(embedder.unanswered)
             + Unanswered(|todo|, Max(embedder.capacity, 1), embedder.sizes, old(embedder.calls))
          && embedder.asked == old(embedder.asked) + As(Doc, todo)
          && ((forall t | t in texts :: t in docs) <==> embedder.unanswered == old(embedder.unanswered))
          && (embedder.unanswered == old(embedder.unanswered) ==>
                Appended(old(OnDisk()), OnDisk(), Entries(embedder.world, embedder.contract, As(Doc, todo))))
      ensures var todo := Todo(embedder.world, embedder.contract, texts, byLength, old(docs), stored);
        r.Err? && embedder.unanswered == old(embedder.unanswered) ==>
          Halted(embedder.world, embedder.contract, Doc, todo, old(OnDisk()), OnDisk())
    {
      hide Missing, ByLength, Unanswered, Grew, Valid, NothingFails, Appended, As, Entries, Distinct, Halted;
      var todo := Unknown(texts);
      MissingAre(embedder.world, embedder.contract, Doc, texts, old(docs), stored);
      if byLength {
        ByLengthSorts(todo);
        todo := ByLength(todo);
      }
      r := EmbedAll(todo);
    }

    /** Takes what is stored and lists the rest. */
    method Unknown(texts: seq<Sized>) returns (todo: seq<Sized>)
      requires Valid()
      modifies this`docs
      ensures Valid()
      ensures todo == Missing(embedder.world, embedder.contract, Doc, texts, old(docs), stored)
      ensures forall t :: t in docs <==>
                t in old(docs) || (t in texts && embedder.world.Key(embedder.contract, Doc, t) in stored)
    {
      var seen: set<Sized> := {};
      todo := [];
      var i := 0;
      hide World.Key;
      assert Listed(embedder.world, embedder.contract, [], old(docs), stored, docs, todo, seen);
      hide Listed, Holds, ServesRight, World.Fair;
      assert texts[..0] == [];
      while i < |texts|
        invariant 0 <= i <= |texts|
        invariant Valid()
        invariant Listed(embedder.world, embedder.contract, texts[..i], old(docs), stored, docs, todo, seen)
      {
        var t := texts[i];
        ghost var key := embedder.world.Key(embedder.contract, Doc, t);
        ListedOneMore(embedder.world, embedder.contract, texts, i, old(docs), stored, docs, todo, seen,
          if key in stored then stored[key] else []);
        if t !in docs && t !in seen {
          seen := seen + {t};
          var v := Recall(Doc, t);
          if v.Some? {
            HoldsAlso(embedder.world, embedder.contract, Doc, docs, t, v.value);
            docs := docs[t := v.value];
          } else {
            todo := todo + [t];
          }
        }
        i := i + 1;
      }
      ListedAll(embedder.world, embedder.contract, texts, old(docs), stored, docs, todo, seen);
      assert texts[..i] == texts;
    }

    /** Embeds distinct new texts in batches of the embedder's capacity. */
    method EmbedAll(todo: seq<Sized>) returns (r: Result<(), Failure>)
      requires Valid() && Distinct(todo) && forall t | t in todo :: t !in docs
      modifies this`docs, this`done, Files(), embedder
      ensures Valid() && FileGrew() && old(docs).Keys <= docs.Keys
      ensures NothingFails() ==> r.Ok?
      ensures Onward(old(SoFar())) && (r.Err? ==> !r.error.ShortBatch? && FailedBecause(r.error, old(SoFar())))
      ensures r.Ok? ==>
        && embedder.unanswered == old(embedder.unanswered)
           + Unanswered(|todo|, Max(embedder.capacity, 1), embedder.sizes, old(embedder.calls))
        && Embedded(embedder.world, embedder.contract, todo, old(docs), docs, old(embedder.asked), embedder.asked,
             old(embedder.unanswered), embedder.unanswered, old(OnDisk()), OnDisk())
      ensures r.Err? && embedder.unanswered == old(embedder.unanswered) ==>
        Halted(embedder.world, embedder.contract, Doc, todo, old(OnDisk()), OnDisk())
    {
      EmbeddedNone(embedder.world, embedder.contract, docs, embedder.asked, embedder.unanswered, OnDisk());
      GrewOnward(embedder.world);
      var capacity := Max(embedder.capacity, 1);
      assert Missed(|todo|, 0, capacity, embedder.sizes, embedder.calls, embedder.calls,
          embedder.unanswered, embedder.unanswered);
      hide Embedded, Grew, Valid, Distinct, Unanswered, Missed, NothingFails, OnDisk, Halted, FailedBecause;
      assert todo[..0] == [];
      var from := 0;
      while from < |todo|
        invariant 0 <= from <= |todo|
        invariant Valid() && FileGrew() && old(docs).Keys <= docs.Keys
        invariant Onward(old(SoFar()))
        invariant Embedded(embedder.world, embedder.contract, todo[..from], old(docs), docs,
                    old(embedder.asked), embedder.asked, old(embedder.unanswered), embedder.unanswered,
                    old(OnDisk()), OnDisk())
        invariant Missed(|todo|, from, capacity, embedder.sizes, old(embedder.calls), embedder.calls,
                    old(embedder.unanswered), embedder.unanswered)
      {
        var next := Min(from + capacity, |todo|);
        MissedStep(|todo|, from, capacity, embedder.sizes, old(embedder.calls), embedder.calls,
          old(embedder.unanswered), embedder.unanswered);
        r := EmbedNext(todo, from, next, old(docs), old(embedder.asked), old(embedder.unanswered), old(OnDisk()),
          old(SoFar()));
        if r.Err? {
          return;
        }
        from := next;
      }
      MissedAll(|todo|, capacity, embedder.sizes, old(embedder.calls), embedder.calls,
        old(embedder.unanswered), embedder.unanswered);
      assert todo[..from] == todo;
      return Ok(());
    }

    /** The next batch, given what the batches before it have done. */
    method EmbedNext(todo: seq<Sized>, from: nat, next: nat, ghost docs0: map<Sized, Vector>,
                     ghost asked0: seq<(Role, Sized)>, ghost missed0: nat, ghost disk0: Option<Disk>,
                     ghost since: Progress)
        returns (r: Result<(), Failure>)
      requires Onward(since)
      requires Valid() && from <= next <= |todo| && Distinct(todo) && forall t | t in todo :: t !in docs0
      requires Embedded(embedder.world, embedder.contract, todo[..from], docs0, docs, asked0, embedder.asked,
                 missed0, embedder.unanswered, disk0, OnDisk())
      modifies this`docs, this`done, Files(), embedder
      ensures Valid() && FileGrew() && old(docs).Keys <= docs.Keys
      ensures embedder.calls == old(embedder.calls) + 1
      ensures embedder.unanswered
           == old(embedder.unanswered) + Monus(next - from, embedder.sizes(old(embedder.calls)))
      ensures NothingFails() ==> r.Ok?
      ensures Onward(since) && (r.Err? ==> !r.error.ShortBatch? && FailedBecause(r.error, since))
      ensures r.Ok? ==>
        Embedded(embedder.world, embedder.contract, todo[..next], docs0, docs, asked0, embedder.asked,
          missed0, embedder.unanswered, disk0, OnDisk())
      ensures r.Err? && embedder.unanswered == missed0 ==>
        Halted(embedder.world, embedder.contract, Doc, todo, disk0, OnDisk())
    {
      ghost var docs1, asked1, missed1, disk1 := docs, embedder.asked, embedder.unanswered, OnDisk();
      NoneMissed(embedder.world, embedder.contract, todo[..from], docs0, docs1,
        asked0, asked1, missed0, missed1, disk0, disk1);
      hide Embedded, Grew, Valid, Distinct, NothingFails, OnDisk, Halted, Appended, Entries, As;
      NewChunk(embedder.world, embedder.contract, todo, from, next, docs0, docs1,
        asked0, asked1, missed0, missed1, disk0, disk1);
      ghost var sofar := SoFar();
      r := EmbedChunk(todo[from..next]);
      if r.Err? {
        FailedSince(r.error, since, sofar);
      }
      if r.Ok? {
        EmbeddedJoin(embedder.world, embedder.contract, todo, from, next, docs0, docs1, docs,
          asked0, asked1, embedder.asked, missed0, missed1, embedder.unanswered, disk0, disk1, OnDisk());
      } else if embedder.unanswered == missed0 {
        HaltedLater(embedder.world, embedder.contract, todo, from, next, disk0, disk1, OnDisk());
      }
    }

    /** One batch of distinct new texts. */
    method EmbedChunk(chunk: seq<Sized>) returns (r: Result<(), Failure>)
      requires Valid() && Distinct(chunk) && forall t | t in chunk :: t !in docs
      modifies this`docs, this`done, Files(), embedder
      ensures Valid() && FileGrew() && old(docs).Keys <= docs.Keys
      ensures embedder.calls == old(embedder.calls) + 1
      ensures embedder.unanswered
           == old(embedder.unanswered) + Monus(|chunk|, embedder.sizes(old(embedder.calls)))
      ensures NothingFails() ==> r.Ok?
      ensures Onward(old(SoFar())) && (r.Err? ==> !r.error.ShortBatch? && FailedBecause(r.error, old(SoFar())))
      ensures r.Ok? ==>
        Embedded(embedder.world, embedder.contract, chunk, old(docs), docs, old(embedder.asked), embedder.asked,
          old(embedder.unanswered), embedder.unanswered, old(OnDisk()), OnDisk())
      ensures r.Err? ==> Halted(embedder.world, embedder.contract, Doc, chunk, old(OnDisk()), OnDisk())
    {
      hide Entries, As, WrittenAll, Grew, Valid, Halted;
      var answers := embedder.EmbedBatch(chunk);
      r := TakeAnswers(chunk, answers);
      var m := Min(|chunk|, |answers|);
      if m < |chunk| {
        assert chunk[m] in chunk && chunk[m] !in chunk[..m];
      } else {
        assert chunk[..m] == chunk;
      }
    }

    /** Stores the answers to a chunk of new texts, as many as there are. */
    method TakeAnswers(chunk: seq<Sized>, answers: seq<Option<Vector>>) returns (r: Result<(), Failure>)
      requires Valid()
      requires forall i | 0 <= i < |answers| && i < |chunk| && answers[i].Some? ::
                 answers[i].value == embedder.world.vector(embedder.contract, Doc, chunk[i])
      modifies this`docs, this`done, Files()
      ensures Valid() && FileGrew() && old(docs).Keys <= docs.Keys
      ensures forall t | t in docs :: t in old(docs) || t in chunk
      ensures (forall i | 0 <= i < |answers| && i < |chunk| :: answers[i].Some?) && Writes() ==> r.Ok?
      ensures embedder.asked == old(embedder.asked) && old(WritesDone()) <= WritesDone()
      ensures r.Err? ==>
        if r.error.EmbeddingFailed? then exists i :: 0 <= i < |answers| && i < |chunk| && answers[i].None?
        else r.error.WriteFailed? && WriteBroke(old(WritesDone()))
      ensures var m := Min(|chunk|, |answers|);
        r.Ok? ==>
          && done == old(done) + m
          && (forall t :: t in docs <==> t in old(docs) || t in chunk[..m])
          && Appended(old(OnDisk()), OnDisk(), Entries(embedder.world, embedder.contract, As(Doc, chunk[..m])))
      ensures r.Err? ==> Halted(embedder.world, embedder.contract, Doc, chunk, old(OnDisk()), OnDisk())
    {
      WrittenNothing();
      hide Entries, WrittenAll, Written, EntryFor, Grew, Holds, ServesRight, World.Fair, Halted;
      EntriesOfNone(embedder.world, embedder.contract);
      GrewOnward(embedder.world);
      var m := Min(|chunk|, |answers|);
      var i := 0;
      while i < m
        invariant 0 <= i <= m
        invariant Valid() && FileGrew() && done == old(done) + i
        invariant old(WritesDone()) <= WritesDone()
        invariant forall t :: t in docs <==> t in old(docs) || t in chunk[..i]
        invariant Appended(old(OnDisk()), OnDisk(), Entries(embedder.world, embedder.contract, As(Doc, chunk[..i])))
      {
        if answers[i].None? {
          HaltedAt(embedder.world, embedder.contract, Doc, chunk, i, Nothing, old(OnDisk()), OnDisk(), OnDisk());
          return Err(EmbeddingFailed);
        }
        var t, v := chunk[i], answers[i].value;
        ghost var between := OnDisk();
        ghost var outcome := if file.Some? then file.value.outcomes(file.value.writes) else Nothing;
        var ok := Keep(Doc, t, v);
        if !ok {
          HaltedAt(embedder.world, embedder.contract, Doc, chunk, i, outcome, old(OnDisk()), between, OnDisk());
          return Err(WriteFailed);
        }
        HoldsAlso(embedder.world, embedder.contract, Doc, docs, t, v);
        docs := docs[t := v];
        done := done + 1;
        EntriesAppend(embedder.world, embedder.contract, Doc, chunk[..i], t);
        assert chunk[..i + 1] == chunk[..i] + [t];
        if file.Some? {
          WrittenOneMore(old(file.value.disk), Entries(embedder.world, embedder.contract, As(Doc, chunk[..i])),
            EntryFor(embedder.world, embedder.contract, Doc, t));
        }
        i := i + 1;
      }
      return Ok(());
    }

    /** Embeds texts as the canary does, duplicates included and never from the
        cache, and keeps what is new. */
    method ExportPass(texts: seq<Sized>) returns (r: Result<(), Failure>)
      requires Valid()
      modifies this`docs, Files(), embedder
      ensures Valid() && FileGrew()
      ensures Onward(old(SoFar())) && (r.Err? ==> FailedBecause(r.error, old(SoFar())))
      ensures NothingFails() && (forall n :: embedder.sizes(n) >= Max(embedder.capacity, 1)) ==> r.Ok?
      ensures r == Err(ShortBatch) || embedder.unanswered == old(embedder.unanswered)
      ensures forall t | t in old(docs) :: t in docs
      ensures r.Ok? ==>
        && embedder.asked == old(embedder.asked) + As(Doc, texts)
        && Exported(embedder.world, embedder.contract, texts, stored, old(docs), docs, old(OnDisk()), OnDisk())
    {
      hide Grew, Valid, As, Exported, Answered;
      EntriesOfNone(embedder.world, embedder.contract);
      GrewOnward(embedder.world);
      var capacity := Max(embedder.capacity, 1);
      var vectors: seq<Vector> := [];
      AnsweredNone(embedder.world, embedder.contract);
      var from := 0;
      while from < |texts|
        invariant 0 <= from <= |texts|
        invariant Valid() && docs == old(docs) && OnDisk() == old(OnDisk()) && FileGrew()
        invariant WritesDone() == old(WritesDone()) && embedder.unanswered == old(embedder.unanswered)
        invariant Answered(embedder.world, embedder.contract, texts[..from], vectors)
        invariant embedder.asked == old(embedder.asked) + As(Doc, texts[..from])
      {
        var next := Min(from + capacity, |texts|);
        var chunk := texts[from..next];
        NextChunk(embedder.world, embedder.contract, texts, from, next);
        var answers := embedder.EmbedBatch(chunk);
        if |answers| < |chunk| {
          return Err(ShortBatch);
        }
        var more := AllAnswers(embedder.world, embedder.contract, chunk, answers);
        if more.None? {
          return Err(EmbeddingFailed);
        }
        AnsweredJoin(embedder.world, embedder.contract, texts[..from], chunk, vectors, more.value);
        vectors := vectors + more.value;
        from := next;
      }
      assert texts[..from] == texts;
      r := KeepNew(texts, vectors);
    }

    method KeepOne(t: Sized, v: Vector) returns (r: Result<(), Failure>)
      requires Valid() && v == embedder.world.vector(embedder.contract, Doc, t)
      modifies this`docs, Files()
      ensures Valid() && FileGrew()
      ensures Writes() ==> r.Ok?
      ensures old(WritesDone()) <= WritesDone()
      ensures r.Err? ==> r.error.WriteFailed? && WriteBroke(old(WritesDone()))
      ensures r.Ok? ==> DocKept(embedder.world, embedder.contract, t, stored, old(docs), docs, old(OnDisk()), OnDisk())
      ensures forall u | u in old(docs) :: u in docs
    {
      hide Grew, Holds, ServesRight, World.Key, World.Fair, EntryFor, Written;
      GrewOnward(embedder.world);
      if t !in docs {
        if embedder.world.Key(embedder.contract, Doc, t) !in stored {
          var ok := Keep(Doc, t, v);
          if !ok {
            return Err(WriteFailed);
          }
        }
        HoldsAlso(embedder.world, embedder.contract, Doc, docs, t, v);
        docs := docs[t := v];
      }
      return Ok(());
    }

    /** The loop over the texts and their vectors that ends the export pass. */
    method KeepNew(texts: seq<Sized>, vectors: seq<Vector>) returns (r: Result<(), Failure>)
      requires Valid() && Answered(embedder.world, embedder.contract, texts, vectors)
      modifies this`docs, Files()
      ensures Valid() && FileGrew()
      ensures Writes() ==> r.Ok?
      ensures old(WritesDone()) <= WritesDone()
      ensures r.Err? ==> r.error.WriteFailed? && WriteBroke(old(WritesDone()))
      ensures forall t | t in old(docs) :: t in docs
      ensures r.Ok? ==>
        Exported(embedder.world, embedder.contract, texts, stored, old(docs), docs, old(OnDisk()), OnDisk())
    {
      ExportedNone(embedder.world, embedder.contract, stored, docs, OnDisk());
      GrewOnward(embedder.world);
      hide Grew, Valid, Exported, Answered, OnDisk, Writes, WriteBroke;
      assert texts[..0] == [];
      var i := 0;
      while i < |texts|
        invariant 0 <= i <= |texts|
        invariant Valid() && FileGrew()
        invariant old(WritesDone()) <= WritesDone()
        invariant forall t | t in old(docs) :: t in docs
        invariant Exported(embedder.world, embedder.contract, texts[..i], stored, old(docs), docs,
                    old(OnDisk()), OnDisk())
      {
        r := KeepNext(texts, vectors, i, old(docs), old(OnDisk()), old(WritesDone()));
        if r.Err? {
          return;
        }
        i := i + 1;
      }
      assert texts[..i] == texts;
      return Ok(());
    }

    /** The next text of the export, given what those before it have done. */
    method KeepNext(texts: seq<Sized>, vectors: seq<Vector>, i: nat,
                    ghost known: map<Sized, Vector>, ghost disk0: Option<Disk>,
                    ghost writes: nat)
        returns (r: Result<(), Failure>)
      requires writes <= WritesDone()
      requires Valid() && i < |texts| && Answered(embedder.world, embedder.contract, texts, vectors)
      requires Exported(embedder.world, embedder.contract, texts[..i], stored, known, docs, disk0, OnDisk())
      modifies this`docs, Files()
      ensures Valid() && FileGrew()
      ensures Writes() ==> r.Ok?
      ensures old(WritesDone()) <= WritesDone()
      ensures r.Err? ==> r.error.WriteFailed? && WriteBroke(writes)
      ensures forall t | t in old(docs) :: t in docs
      ensures r.Ok? ==>
        Exported(embedder.world, embedder.contract, texts[..i + 1], stored, known, docs, disk0, OnDisk())
    {
      ghost var docs1, disk1 := docs, OnDisk();
      hide Grew, Valid, World.Key, Exported, EntryFor, Written, DocKept, OnDisk;
      assert vectors[i] == embedder.world.vector(embedder.contract, Doc, texts[i]);
      r := KeepOne(texts[i], vectors[i]);
      if r.Ok? {
        ExportedOneMore(embedder.world, embedder.contract, texts, i, stored, known, docs1, docs,
          disk0, disk1, OnDisk());
      }
    }

    /** Recalls or embeds one new query. */
    method AddQuery(t: Sized) returns (r: Result<(), Failure>)
      requires Valid() && t !in queries
      modifies this`queries, this`done, Files(), embedder
      ensures Valid() && FileGrew()
      ensures NothingFails() ==> r.Ok?
      ensures Onward(old(SoFar())) && (r.Err? ==> !r.error.ShortBatch? && FailedBecause(r.error, old(SoFar())))
      ensures r.Ok? ==> QueryAdded(embedder.world, embedder.contract, t, stored, old(queries), queries,
                          old(embedder.asked), embedder.asked, old(OnDisk()), OnDisk())
      ensures old(queries).Keys <= queries.Keys
      ensures r.Err? ==>
        && embedder.world.Key(embedder.contract, Query, t) !in stored
        && Tried(embedder.world, embedder.contract, t, old(OnDisk()), OnDisk())
    {
      WrittenNothing();
      hide Grew, Holds, ServesRight, World.Key, World.Fair, Written;
      GrewOnward(embedder.world);
      var known := Recall(Query, t);
      if known.Some? {
        HoldsAlso(embedder.world, embedder.contract, Query, queries, t, known.value);
        queries := queries[t := known.value];
        return Ok(());
      }
      var v := embedder.Embed(Query, t);
      if v.None? {
        TriedTo(embedder.world, embedder.contract, t, Nothing, OnDisk(), OnDisk());
        return Err(EmbeddingFailed);
      }
      ghost var between := OnDisk();
      ghost var outcome := if file.Some? then file.value.outcomes(file.value.writes) else Nothing;
      var ok := Keep(Query, t, v.value);
      if !ok {
        TriedTo(embedder.world, embedder.contract, t, outcome, between, OnDisk());
        return Err(WriteFailed);
      }
      HoldsAlso(embedder.world, embedder.contract, Query, queries, t, v.value);
      queries := queries[t := v.value];
      done := done + 1;
      return Ok(());
    }

    method Queries(texts: seq<Sized>) returns (r: Result<(), Failure>)
      requires Valid()
      modifies this`queries, this`done, Files(), embedder
      ensures Valid() && FileGrew() && old(queries).Keys <= queries.Keys
      ensures NothingFails() ==> r.Ok?
      ensures Onward(old(SoFar())) && (r.Err? ==> !r.error.ShortBatch? && FailedBecause(r.error, old(SoFar())))
      ensures r.Ok? ==> QueriesDone(embedder.world, embedder.contract, texts, stored, old(queries), queries,
                          old(embedder.asked), embedder.asked, old(OnDisk()), OnDisk())
      ensures r.Err? ==>
        Halted(embedder.world, embedder.contract, Query,
          Missing(embedder.world, embedder.contract, Query, texts, old(queries), stored), old(OnDisk()), OnDisk())
    {
      QueriesDoneNone(embedder.world, embedder.contract, stored, queries, embedder.asked, OnDisk());
      GrewOnward(embedder.world);
      hide Grew, QueriesDone, Valid, OnDisk, Halted, Missing, FailedBecause, NothingFails;
      assert texts[..0] == [];
      var n := 0;
      while n < |texts|
        invariant 0 <= n <= |texts|
        invariant Valid() && FileGrew() && old(queries).Keys <= queries.Keys
        invariant Onward(old(SoFar()))
        invariant QueriesDone(embedder.world, embedder.contract, texts[..n], stored, old(queries), queries,
                    old(embedder.asked), embedder.asked, old(OnDisk()), OnDisk())
      {
        r := NextQuery(texts, n, old(queries), old(embedder.asked), old(OnDisk()), old(SoFar()));
        if r.Err? {
          return;
        }
        n := n + 1;
      }
      assert texts[..n] == texts;
      return Ok(());
    }

    /** The next query, given what the ones before it have done. */
    method NextQuery(texts: seq<Sized>, n: nat, ghost known: map<Sized, Vector>,
                     ghost asked0: seq<(Role, Sized)>, ghost disk0: Option<Disk>,
                     ghost since: Progress)
        returns (r: Result<(), Failure>)
      requires Onward(since)
      requires Valid() && n < |texts|
      requires QueriesDone(embedder.world, embedder.contract, texts[..n], stored, known, queries,
                 asked0, embedder.asked, disk0, OnDisk())
      modifies this`queries, this`done, Files(), embedder
      ensures Valid() && FileGrew() && old(queries).Keys <= queries.Keys
      ensures NothingFails() ==> r.Ok?
      ensures Onward(since) && (r.Err? ==> !r.error.ShortBatch? && FailedBecause(r.error, since))
      ensures r.Ok? ==> QueriesDone(embedder.world, embedder.contract, texts[..n + 1], stored, known, queries,
                          asked0, embedder.asked, disk0, OnDisk())
      ensures r.Err? ==>
        Halted(embedder.world, embedder.contract, Query,
          Missing(embedder.world, embedder.contract, Query, texts, known, stored), disk0, OnDisk())
    {
      hide Grew, QueriesDone, QueryAdded, Valid, OnDisk, Halted, Tried, Missing, World.Key, FailedBecause, NothingFails;
      var t := texts[n];
      if t in queries {
        GrewOnward(embedder.world);
        QueriesDoneKnown(embedder.world, embedder.contract, texts, n, stored, known, queries,
          asked0, embedder.asked, disk0, OnDisk());
        return Ok(());
      }
      ghost var queries1, asked1, disk1 := queries, embedder.asked, OnDisk();
      ghost var sofar := SoFar();
      r := AddQuery(t);
      if r.Ok? {
        QueriesDoneAdded(embedder.world, embedder.contract, texts, n, stored, known, queries1, queries,
          asked0, asked1, embedder.asked, disk0, disk1, OnDisk());
      } else {
        FailedSince(r.error, since, sofar);
        QueriesHalted(embedder.world, embedder.contract, texts, n, stored, known, queries1,
          asked0, asked1, disk0, disk1, OnDisk());
      }
    }
  }

  ghost predicate Grew(w: World, before: Disk, after: Disk) {
    forall line | line in after.Readable() :: line in before.Readable() || Right(w, line)
  }

  /** Each text of the map has the vector of the embedder. */
  ghost predicate Holds(w: World, c: Sized, role: Role, texts: map<Sized, Vector>) {
    forall t | t in texts :: texts[t] == w.vector(c, role, t)
  }

  lemma HoldsAlso(w: World, c: Sized, role: Role, texts: map<Sized, Vector>, t: Sized, v: Vector)
    requires Holds(w, c, role, texts) && v == w.vector(c, role, t)
    ensures Holds(w, c, role, texts[t := v])
  {}

  lemma GrewOnward(w: World)
    ensures forall d :: Grew(w, d, d)
    ensures forall d, e, f :: Grew(w, d, e) && Grew(w, e, f) ==> Grew(w, d, f)
  {}

  // ---------------------------------------------------------------------
  // What the batches have done
  // ---------------------------------------------------------------------

  /** How many of n texts get no answer, in batches from some call on. */
  function Unanswered(n: nat, capacity: nat, sizes: nat -> nat, call: nat): nat
    requires capacity > 0
  {
    if n == 0 then 0
    else
      var batch := Min(capacity, n);
      Monus(batch, sizes(call)) + Unanswered(n - batch, capacity, sizes, call + 1)
  }

  /** After the batches of the first `from` texts, so many went unanswered. */
  ghost predicate Missed(n: nat, from: nat, capacity: nat, sizes: nat -> nat, call0: nat, call: nat,
                         missed0: nat, missed: nat)
  {
    && capacity > 0 && from <= n
    && missed + Unanswered(n - from, capacity, sizes, call) == missed0 + Unanswered(n, capacity, sizes, call0)
  }

  lemma MissedStep(n: nat, from: nat, capacity: nat, sizes: nat -> nat, call0: nat, call: nat,
                   missed0: nat, missed: nat)
    requires from < n && Missed(n, from, capacity, sizes, call0, call, missed0, missed)
    ensures var next := Min(from + capacity, n);
      Missed(n, next, capacity, sizes, call0, call + 1, missed0, missed + Monus(next - from, sizes(call)))
  {}

  lemma MissedAll(n: nat, capacity: nat, sizes: nat -> nat, call0: nat, call: nat, missed0: nat, missed: nat)
    requires Missed(n, n, capacity, sizes, call0, call, missed0, missed)
    ensures missed == missed0 + Unanswered(n, capacity, sizes, call0)
  {}

  /** Distinct new texts were asked; all are in the map if and only if none went
      unanswered, and then all are on disk. */
  ghost predicate Embedded(w: World, c: Sized, texts: seq<Sized>, docs0: map<Sized, Vector>, docs: map<Sized, Vector>,
                           asked0: seq<(Role, Sized)>, asked: seq<(Role, Sized)>, missed0: nat, missed: nat,
                           disk0: Option<Disk>, disk: Option<Disk>)
  {
    && (forall t | t in docs0 :: t in docs)
    && (forall t | t in docs :: t in docs0 || t in texts)
    && asked == asked0 + As(Doc, texts)
    && missed >= missed0
    && ((forall t | t in texts :: t in docs) <==> missed == missed0)
    && (missed == missed0 ==> Appended(disk0, disk, Entries(w, c, As(Doc, texts))))
  }

  lemma NoneMissed(w: World, c: Sized, texts: seq<Sized>, docs0: map<Sized, Vector>, docs: map<Sized, Vector>,
                   asked0: seq<(Role, Sized)>, asked: seq<(Role, Sized)>, missed0: nat, missed: nat,
                   disk0: Option<Disk>, disk: Option<Disk>)
    requires Embedded(w, c, texts, docs0, docs, asked0, asked, missed0, missed, disk0, disk)
    ensures missed >= missed0
    ensures missed == missed0 ==> Appended(disk0, disk, Entries(w, c, As(Doc, texts)))
  {}

  lemma WrittenNothing()
    ensures forall disk, line :: Written(disk, line, Nothing) == disk
  {}

  lemma EmbeddedNone(w: World, c: Sized, docs: map<Sized, Vector>, asked: seq<(Role, Sized)>, missed: nat,
                     disk: Option<Disk>)
    ensures Embedded(w, c, [], docs, docs, asked, asked, missed, missed, disk, disk)
  {
    assert asked + As(Doc, []) == asked;
  }

  lemma NewChunk(w: World, c: Sized, todo: seq<Sized>, from: nat, next: nat,
                 docs0: map<Sized, Vector>, docs: map<Sized, Vector>,
                 asked0: seq<(Role, Sized)>, asked: seq<(Role, Sized)>, missed0: nat, missed: nat,
                 disk0: Option<Disk>, disk: Option<Disk>)
    requires from <= next <= |todo| && Distinct(todo) && forall t | t in todo :: t !in docs0
    requires Embedded(w, c, todo[..from], docs0, docs, asked0, asked, missed0, missed, disk0, disk)
    ensures Distinct(todo[from..next]) && forall t | t in todo[from..next] :: t !in docs
  {
    NextChunk(w, c, todo, from, next);
  }

  lemma EmbeddedJoin(w: World, c: Sized, todo: seq<Sized>, from: nat, next: nat,
                     docs0: map<Sized, Vector>, docs1: map<Sized, Vector>, docs: map<Sized, Vector>,
                     asked0: seq<(Role, Sized)>, asked1: seq<(Role, Sized)>, asked: seq<(Role, Sized)>,
                     missed0: nat, missed1: nat, missed: nat,
                     disk0: Option<Disk>, disk1: Option<Disk>, disk: Option<Disk>)
    requires from <= next <= |todo| && Distinct(todo) && forall t | t in todo :: t !in docs0
    requires Embedded(w, c, todo[..from], docs0, docs1, asked0, asked1, missed0, missed1, disk0, disk1)
    requires Embedded(w, c, todo[from..next], docs1, docs, asked1, asked, missed1, missed, disk1, disk)
    ensures Embedded(w, c, todo[..next], docs0, docs, asked0, asked, missed0, missed, disk0, disk)
  {
    NextChunk(w, c, todo, from, next);
    hide As, Entries, WrittenAll, Distinct;
    if disk0.Some? {
      WrittenInTwo(disk0.value, Entries(w, c, As(Doc, todo[..from])), Entries(w, c, As(Doc, todo[from..next])));
    }
  }

  // ---------------------------------------------------------------------
  // What the query loop has done
  // ---------------------------------------------------------------------

  /** Texts were put into the map; those that were missing were asked, and kept on disk. */
  ghost predicate QueriesDone(w: World, c: Sized, texts: seq<Sized>, stored: map<Text, Vector>,
                              known: map<Sized, Vector>, queries: map<Sized, Vector>,
                              asked0: seq<(Role, Sized)>, asked: seq<(Role, Sized)>,
                              disk0: Option<Disk>, disk: Option<Disk>)
  {
    var todo := As(Query, Missing(w, c, Query, texts, known, stored));
    && (forall t :: t in queries <==> t in known || t in texts)
    && asked == asked0 + todo
    && Appended(disk0, disk, Entries(w, c, todo))
  }

  /** The same for one text that was not in the map. */
  ghost predicate QueryAdded(w: World, c: Sized, t: Sized, stored: map<Text, Vector>,
                             before: map<Sized, Vector>, queries: map<Sized, Vector>,
                             asked0: seq<(Role, Sized)>, asked: seq<(Role, Sized)>,
                             disk0: Option<Disk>, disk: Option<Disk>)
  {
    && (forall u :: u in queries <==> u in before || u == t)
    && (if w.Key(c, Query, t) in stored then asked == asked0 && disk == disk0
        else
          && asked == asked0 + [(Query, t)]
          && (disk0.None? ==> disk.None?)
          && (disk0.Some? ==> disk == Some(Written(disk0.value, EntryFor(w, c, Query, t), Full))))
  }

  /** The text's entry was written in part or not at all. */
  ghost predicate Tried(w: World, c: Sized, t: Sized, before: Option<Disk>, after: Option<Disk>) {
    if before.None? then after.None?
    else exists outcome :: after == Some(Written(before.value, EntryFor(w, c, Query, t), outcome))
  }

  lemma TriedTo(w: World, c: Sized, t: Sized, outcome: Outcome, before: Option<Disk>, after: Option<Disk>)
    requires if before.None? then after.None?
             else after == Some(Written(before.value, EntryFor(w, c, Query, t), outcome))
    ensures Tried(w, c, t, before, after)
  {}

  lemma {:induction false} MissingPrefix(w: World, c: Sized, role: Role, texts: seq<Sized>, n: nat,
                                         known: map<Sized, Vector>, stored: map<Text, Vector>)
    requires n <= |texts|
    ensures Missing(w, c, role, texts[..n], known, stored) <= Missing(w, c, role, texts, known, stored)
  {
    hide World.Key;
    var m := |texts| - 1;
    if n == |texts| {
      assert texts[..n] == texts;
    } else {
      assert texts[..m][..n] == texts[..n];
      MissingPrefix(w, c, role, texts[..m], n, known, stored);
    }
  }

  /** A run that fails at a text stops behind the entries of those before it. */
  lemma QueriesHalted(w: World, c: Sized, texts: seq<Sized>, n: nat, stored: map<Text, Vector>,
                      known: map<Sized, Vector>, queries: map<Sized, Vector>,
                      asked0: seq<(Role, Sized)>, asked: seq<(Role, Sized)>,
                      disk0: Option<Disk>, disk1: Option<Disk>, disk: Option<Disk>)
    requires n < |texts| && texts[n] !in queries && w.Key(c, Query, texts[n]) !in stored
    requires QueriesDone(w, c, texts[..n], stored, known, queries, asked0, asked, disk0, disk1)
    requires Tried(w, c, texts[n], disk1, disk)
    ensures Halted(w, c, Query, Missing(w, c, Query, texts, known, stored), disk0, disk)
  {
    MissingOneMore(w, c, Query, texts, n, known, stored);
    MissingPrefix(w, c, Query, texts, n + 1, known, stored);
    hide Missing, World.Key, Written, WrittenAll, EntryFor, Entries, As, Halted;
    var todo := Missing(w, c, Query, texts, known, stored);
    var k := |Missing(w, c, Query, texts[..n], known, stored)|;
    assert todo[k] == texts[n] && todo[..k] == Missing(w, c, Query, texts[..n], known, stored);
    var outcome := Nothing;
    if disk1.Some? {
      outcome :| disk == Some(Written(disk1.value, EntryFor(w, c, Query, texts[n]), outcome));
    }
    HaltedAt(w, c, Query, todo, k, outcome, disk0, disk1, disk);
  }

  lemma QueriesDoneNone(w: World, c: Sized, stored: map<Text, Vector>, known: map<Sized, Vector>,
                        asked: seq<(Role, Sized)>, disk: Option<Disk>)
    ensures QueriesDone(w, c, [], stored, known, known, asked, asked, disk, disk)
  {
    assert asked + As(Query, []) == asked;
  }

  lemma QueriesDoneKnown(w: World, c: Sized, texts: seq<Sized>, n: nat, stored: map<Text, Vector>,
                         known: map<Sized, Vector>, queries: map<Sized, Vector>,
                         asked0: seq<(Role, Sized)>, asked: seq<(Role, Sized)>,
                         disk0: Option<Disk>, disk: Option<Disk>)
    requires n < |texts| && texts[n] in queries
    requires QueriesDone(w, c, texts[..n], stored, known, queries, asked0, asked, disk0, disk)
    ensures QueriesDone(w, c, texts[..n + 1], stored, known, queries, asked0, asked, disk0, disk)
  {
    hide Missing, World.Key;
    MissingOneMore(w, c, Query, texts, n, known, stored);
  }

  lemma QueriesDoneAdded(w: World, c: Sized, texts: seq<Sized>, n: nat, stored: map<Text, Vector>,
                         known: map<Sized, Vector>, before: map<Sized, Vector>, queries: map<Sized, Vector>,
                         asked0: seq<(Role, Sized)>, asked1: seq<(Role, Sized)>, asked: seq<(Role, Sized)>,
                         disk0: Option<Disk>, disk1: Option<Disk>, disk: Option<Disk>)
    requires n < |texts| && texts[n] !in before
    requires QueriesDone(w, c, texts[..n], stored, known, before, asked0, asked1, disk0, disk1)
    requires QueryAdded(w, c, texts[n], stored, before, queries, asked1, asked, disk1, disk)
    ensures QueriesDone(w, c, texts[..n + 1], stored, known, queries, asked0, asked, disk0, disk)
  {
    hide Missing, World.Key, Written, WrittenAll, EntryFor, Entries, As;
    MissingOneMore(w, c, Query, texts, n, known, stored);
    var todo := Missing(w, c, Query, texts[..n], known, stored);
    EntriesAppend(w, c, Query, todo, texts[n]);
    if disk0.Some? {
      WrittenOneMore(disk0.value, Entries(w, c, As(Query, todo)), EntryFor(w, c, Query, texts[n]));
    }
  }

  // ---------------------------------------------------------------------
  // What the export pass has done
  // ---------------------------------------------------------------------

  /** The embedder's vectors for some documents. */
  ghost predicate Answered(w: World, c: Sized, texts: seq<Sized>, vectors: seq<Vector>) {
    |vectors| == |texts| && forall i | 0 <= i < |texts| :: vectors[i] == w.vector(c, Doc, texts[i])
  }

  lemma AnsweredNone(w: World, c: Sized)
    ensures Answered(w, c, [], [])
  {}

  lemma AnsweredJoin(w: World, c: Sized, a: seq<Sized>, b: seq<Sized>, v: seq<Vector>, u: seq<Vector>)
    requires Answered(w, c, a, v) && Answered(w, c, b, u)
    ensures Answered(w, c, a + b, v + u)
  {}

  /** The vectors of a batch in which nothing failed. */
  method AllAnswers(ghost w: World, ghost c: Sized, chunk: seq<Sized>, answers: seq<Option<Vector>>)
      returns (vectors: Option<seq<Vector>>)
    requires |chunk| <= |answers|
    requires forall i | 0 <= i < |chunk| && answers[i].Some? :: answers[i].value == w.vector(c, Doc, chunk[i])
    ensures vectors.Some? ==> Answered(w, c, chunk, vectors.value)
    ensures vectors.None? <==> exists i :: 0 <= i < |chunk| && answers[i].None?
  {
    var taken: seq<Vector> := [];
    var j := 0;
    while j < |chunk|
      invariant 0 <= j <= |chunk| && |taken| == j
      invariant forall i | 0 <= i < j :: answers[i].Some? && taken[i] == answers[i].value
    {
      if answers[j].None? {
        return None;
      }
      taken := taken + [answers[j].value];
      j := j + 1;
    }
    return Some(taken);
  }

  ghost predicate Exported(w: World, c: Sized, texts: seq<Sized>, stored: map<Text, Vector>,
                           known: map<Sized, Vector>, docs: map<Sized, Vector>,
                           disk0: Option<Disk>, disk: Option<Disk>)
  {
    && (forall t :: t in docs <==> t in known || t in texts)
    && Appended(disk0, disk, Entries(w, c, As(Doc, Missing(w, c, Doc, texts, known, stored))))
  }

  ghost predicate DocKept(w: World, c: Sized, t: Sized, stored: map<Text, Vector>,
                          before: map<Sized, Vector>, docs: map<Sized, Vector>,
                          disk0: Option<Disk>, disk: Option<Disk>)
  {
    && (forall u :: u in docs <==> u in before || u == t)
    && (disk0.None? ==> disk.None?)
    && (disk0.Some? ==>
          disk == if t in before || w.Key(c, Doc, t) in stored then disk0
                  else Some(Written(disk0.value, EntryFor(w, c, Doc, t), Full)))
  }

  lemma ExportedNone(w: World, c: Sized, stored: map<Text, Vector>, known: map<Sized, Vector>, disk: Option<Disk>)
    ensures Exported(w, c, [], stored, known, known, disk, disk)
  {}

  lemma ExportedOneMore(w: World, c: Sized, texts: seq<Sized>, n: nat, stored: map<Text, Vector>,
                        known: map<Sized, Vector>, before: map<Sized, Vector>, docs: map<Sized, Vector>,
                        disk0: Option<Disk>, disk1: Option<Disk>, disk: Option<Disk>)
    requires n < |texts| && Exported(w, c, texts[..n], stored, known, before, disk0, disk1)
    requires DocKept(w, c, texts[n], stored, before, docs, disk1, disk)
    ensures Exported(w, c, texts[..n + 1], stored, known, docs, disk0, disk)
  {
    hide Missing, World.Key, Written, WrittenAll, EntryFor, Entries, As;
    MissingOneMore(w, c, Doc, texts, n, known, stored);
    var todo := Missing(w, c, Doc, texts[..n], known, stored);
    EntriesAppend(w, c, Doc, todo, texts[n]);
    if disk0.Some? {
      WrittenOneMore(disk0.value, Entries(w, c, As(Doc, todo)), EntryFor(w, c, Doc, texts[n]));
    }
  }

  // ---------------------------------------------------------------------
  // Runs that share a file
  // ---------------------------------------------------------------------

  /** Damage between two runs: lines may vanish, turn into garbage or change their width. */
  ghost predicate Damaged(w: World, before: Disk, after: Disk) {
    forall line | line in after.Readable() :: line in before.Readable() || RightOrCut(w, line)
  }

  /** Disk contents at the starts of runs, each after a run and its accidents. */
  ghost predicate History(w: World, disks: seq<Disk>) {
    && |disks| > 0 && disks[0].Readable() == []
    && forall i | 0 < i < |disks| :: Grew(w, disks[i - 1], disks[i]) || Damaged(w, disks[i - 1], disks[i])
  }

  lemma RightIsRightOrCut(w: World, line: Line)
    ensures Right(w, line) ==> RightOrCut(w, line)
  {}

  lemma {:induction false} HistoryIsRightOrCut(w: World, disks: seq<Disk>)
    requires History(w, disks)
    ensures forall line | line in disks[|disks| - 1].Readable() :: RightOrCut(w, line)
    ensures (forall i | 0 < i < |disks| :: Grew(w, disks[i - 1], disks[i])) ==>
              forall line | line in disks[|disks| - 1].Readable() :: Right(w, line)
  {
    hide Right, RightOrCut, Disk.Readable;
    var n := |disks| - 1;
    if n > 0 {
      var before := disks[..n];
      HistoryIsRightOrCut(w, before);
      assert before[n - 1] == disks[n - 1];
      forall line ensures Right(w, line) ==> RightOrCut(w, line) {
        RightIsRightOrCut(w, line);
      }
    }
  }

  /** After any runs under any contracts over one file, a reader that checks the
      width finds only the vectors of its own embedder; and so does one that does
      not, while nothing but writing and tearing has happened to the file. */
  lemma RunsServeRight(w: World, disks: seq<Disk>, c: Sized)
    requires w.Fair() && History(w, disks)
    ensures var lines := disks[|disks| - 1].Readable();
      && ServesRight(w, c, Load(lines, Some(w.dim(c))))
      && ((forall i | 0 < i < |disks| :: Grew(w, disks[i - 1], disks[i])) ==> ServesRight(w, c, Load(lines, None)))
  {
    hide Load, ServesRight;
    var lines := disks[|disks| - 1].Readable();
    HistoryIsRightOrCut(w, disks);
    CheckedLoadServesRight(w, c, lines);
    if forall i | 0 < i < |disks| :: Grew(w, disks[i - 1], disks[i]) {
      UncheckedLoadServesRightExactWhen(w, c, lines);
      forall role, text, i | LastOf(lines, None, w.Key(c, role, text), i) ensures |lines[i].v| == w.dim(c) {
        assert Right(w, lines[i]);
      }
    }
  }

  /** A run in which `docs` reports success and the text is not there. */
  method ShortBatchGoesUnnoticed(world: World, contract: Sized, t: Sized)
      returns (r: Result<(), Failure>, embedder: Embedder, cache: Cache)
    requires world.Fair()
    ensures r.Ok? && embedder.asked == [(Doc, t)] && t !in cache.docs
  {
    embedder := new Embedder(world, contract, 1, n => 0, n => false);
    cache := new Cache(embedder);
    MissingOneMore(world, contract, Doc, [t], 0, map[], map[]);
    assert [t][..0] == [] && [t][..1] == [t] && As(Doc, [t]) == [(Doc, t)];
    assert Todo(world, contract, [t], false, map[], map[]) == [t];
    r := cache.Docs([t], false);
  }
}
