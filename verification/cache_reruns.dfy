/** What a run of eval_measure embeds again after an earlier one, interrupted
    anywhere, over the same file (examples/eval_measure/main.rs). */
module CacheReruns {
  import opened Prelude
  import opened CacheKey
  import opened VectorCache

  // ---------------------------------------------------------------------
  // Which keys a file holds
  // ---------------------------------------------------------------------

  ghost predicate Has(lines: seq<Line>, key: Text) {
    exists i :: 0 <= i < |lines| && lines[i].Entry? && lines[i].key == key
  }

  lemma HasAt(lines: seq<Line>, key: Text, i: nat)
    requires i < |lines| && lines[i].Entry? && lines[i].key == key
    ensures Has(lines, key)
  {}

  lemma {:induction false} LoadHas(lines: seq<Line>, key: Text)
    ensures key in Load(lines, None) <==> Has(lines, key)
  {
    if lines != [] {
      var n := |lines| - 1;
      LoadHas(lines[..n], key);
      HasJoined(lines[..n], [lines[n]], key);
      assert lines[..n] + [lines[n]] == lines;
      HasOne(lines[n], key);
    }
  }

  lemma HasJoined(a: seq<Line>, b: seq<Line>, key: Text)
    ensures Has(a + b, key) <==> Has(a, key) || Has(b, key)
  {
    var s := a + b;
    if Has(s, key) {
      var i :| 0 <= i < |s| && s[i].Entry? && s[i].key == key;
      if i < |a| { HasAt(a, key, i); } else { HasAt(b, key, i - |a|); }
    }
    if Has(a, key) {
      var i :| 0 <= i < |a| && a[i].Entry? && a[i].key == key;
      HasAt(s, key, i);
    }
    if Has(b, key) {
      var i :| 0 <= i < |b| && b[i].Entry? && b[i].key == key;
      assert s[|a| + i] == b[i];
      HasAt(s, key, |a| + i);
    }
  }

  lemma HasOne(line: Line, key: Text)
    ensures Has([line], key) <==> line.Entry? && line.key == key
  {
    if line.Entry? && line.key == key { HasAt([line], key, 0); }
  }

  lemma HasNone(key: Text)
    ensures !Has([], key)
  {}

  ghost predicate TailHas(disk: Disk, key: Text) {
    disk.tail.Some? && disk.tail.value.Entry? && disk.tail.value.key == key
  }

  lemma ReadableHas(disk: Disk, key: Text)
    ensures Has(disk.Readable(), key) <==> Has(disk.lines, key) || TailHas(disk, key)
  {
    HasJoined(disk.lines, if disk.tail.Some? then [disk.tail.value] else [], key);
    HasNone(key);
    if disk.tail.Some? { HasOne(disk.tail.value, key); }
  }

  /** Entries behind a torn line: the first of them is lost, and the torn line is. */
  lemma WrittenAllHas(disk: Disk, lines: seq<Line>, key: Text)
    requires lines != []
    ensures var after := WrittenAll(disk, lines);
      && after.tail.None?
      && (Has(after.lines, key) <==>
            Has(disk.lines, key) || Has(if disk.tail.None? then lines else lines[1..], key))
  {
    hide Has;
    if disk.tail.None? {
      HasJoined(disk.lines, lines, key);
    } else {
      HasJoined(disk.lines + [Garbage], lines[1..], key);
      HasJoined(disk.lines, [Garbage], key);
      HasOne(Garbage, key);
    }
  }

  /** The line itself lands if it is written but for its newline, and not behind a
      torn one. */
  predicate Lands(disk: Disk, outcome: Outcome) {
    disk.tail.None? && (outcome == Full || outcome == Partial(true))
  }

  lemma WrittenHas(disk: Disk, line: Line, outcome: Outcome, key: Text)
    ensures Has(Written(disk, line, outcome).Readable(), key) <==>
      || Has(disk.lines, key)
      || (outcome == Nothing && TailHas(disk, key))
      || (Lands(disk, outcome) && line.Entry? && line.key == key)
  {
    hide Has;
    ReadableHas(disk, key);
    ReadableHas(Written(disk, line, outcome), key);
    if outcome == Full {
      var seen := if disk.tail.None? then line else Garbage;
      HasJoined(disk.lines, [seen], key);
      HasOne(seen, key);
    }
  }

  lemma EntriesHave(w: World, c: Sized, role: Role, todo: seq<Sized>, t: Sized)
    requires w.Fair()
    ensures Has(Entries(w, c, As(role, todo)), w.Key(c, role, t)) <==> t in todo
  {
    var lines, key := Entries(w, c, As(role, todo)), w.Key(c, role, t);
    hide World.Key, World.Fair;
    forall i | 0 <= i < |todo| ensures lines[i] == EntryFor(w, c, role, todo[i]) {}
    if Has(lines, key) {
      var i :| 0 <= i < |lines| && lines[i].Entry? && lines[i].key == key;
      KeyInjective(w, c, role, t, c, role, todo[i]);
    }
    if t in todo {
      var i :| 0 <= i < |todo| && todo[i] == t;
      HasAt(lines, key, i);
    }
  }

  lemma EntriesTail(w: World, c: Sized, role: Role, todo: seq<Sized>)
    requires todo != []
    ensures Entries(w, c, As(role, todo)) != []
    ensures Entries(w, c, As(role, todo))[1..] == Entries(w, c, As(role, todo[1..]))
  {}

  // ---------------------------------------------------------------------
  // A run after an interrupted one
  // ---------------------------------------------------------------------

  /** The file holds no entry for the text. */
  ghost predicate Unstored(w: World, c: Sized, role: Role, disk: Disk, t: Sized) {
    !Has(disk.Readable(), w.Key(c, role, t))
  }

  /** Some texts are those a run has to embed, each once, in whatever order. */
  ghost predicate ToEmbed(w: World, c: Sized, role: Role, texts: seq<Sized>, disk: Disk, todo: seq<Sized>) {
    Distinct(todo) && forall t :: t in todo <==> t in texts && Unstored(w, c, role, disk, t)
  }

  lemma MissingIsToEmbed(w: World, c: Sized, role: Role, texts: seq<Sized>, disk: Disk)
    ensures ToEmbed(w, c, role, texts, disk, Missing(w, c, role, texts, map[], Load(disk.Readable(), None)))
  {
    var stored := Load(disk.Readable(), None);
    MissingAre(w, c, role, texts, map[], stored);
    hide Missing, Load, World.Key, Has, Distinct, Disk.Readable;
    forall t: Sized ensures w.Key(c, role, t) in stored <==> Has(disk.Readable(), w.Key(c, role, t)) {
      LoadHas(disk.Readable(), w.Key(c, role, t));
    }
  }

  lemma TodoIsToEmbed(w: World, c: Sized, texts: seq<Sized>, byLength: bool, disk: Disk)
    ensures ToEmbed(w, c, Doc, texts, disk, Todo(w, c, texts, byLength, map[], Load(disk.Readable(), None)))
  {
    MissingIsToEmbed(w, c, Doc, texts, disk);
    ByLengthSorts(Missing(w, c, Doc, texts, map[], Load(disk.Readable(), None)));
    hide Missing, Load, ByLength, Unstored, Distinct;
  }

  /** The texts that are embedded again: those not yet written, and where the run
      wrote behind a torn line, the first text and the one of that line. */
  ghost predicate Redone(w: World, c: Sized, role: Role, texts: seq<Sized>, disk: Disk, todo: seq<Sized>,
                         k: nat, outcome: Outcome, t: Sized)
    requires k <= |todo|
  {
    var wrote := k > 0 || (k < |todo| && outcome != Nothing);
    var landed := k < |todo| && (outcome == Full || outcome == Partial(true)) && (k > 0 || disk.tail.None?);
    || t in todo[if landed then k + 1 else k..]
    || (disk.tail.Some? && wrote &&
          (t == todo[0]
           || (t in texts && TailHas(disk, w.Key(c, role, t)) && !Has(disk.lines, w.Key(c, role, t)))))
  }

  /** What the file holds of a role's texts after such a run. */
  lemma AfterHas(w: World, c: Sized, role: Role, disk: Disk, todo: seq<Sized>, k: nat, outcome: Outcome, t: Sized)
    requires w.Fair() && k <= |todo|
    ensures var key := w.Key(c, role, t);
      var wrote := k > 0 || (k < |todo| && outcome != Nothing);
      var landed := k < |todo| && (outcome == Full || outcome == Partial(true)) && (k > 0 || disk.tail.None?);
      Unstored(w, c, role, Interrupted(w, c, role, disk, todo, k, outcome), t) <==>
        && !Has(disk.lines, key)
        && (!wrote ==> !TailHas(disk, key))
        && t !in (if k == 0 then [] else if disk.tail.None? then todo[..k] else todo[..k][1..])
        && (landed ==> t != todo[k])
  {
    var key, first := w.Key(c, role, t), todo[..k];
    var lines := Entries(w, c, As(role, first));
    var before := WrittenAll(disk, lines);
    if k > 0 {
      EntriesTail(w, c, role, first);
      EntriesHave(w, c, role, first, t);
      EntriesHave(w, c, role, first[1..], t);
      WrittenAllHas(disk, lines, key);
    } else {
      EntriesOfNone(w, c);
    }
    ReadableHas(before, key);
    if k < |todo| {
      WrittenHas(before, EntryFor(w, c, role, todo[k]), outcome, key);
      if w.Key(c, role, todo[k]) == key { KeyInjective(w, c, role, todo[k], c, role, t); }
    }
    hide Has, WrittenAll, Written, Entries, As, World.Key, World.Fair, Disk.Readable;
  }

  /** A run after an interrupted one embeds exactly these texts. */
  lemma RerunEmbedsExactly(w: World, c: Sized, role: Role, texts: seq<Sized>, disk: Disk, todo: seq<Sized>,
                           k: nat, outcome: Outcome, again: seq<Sized>)
    requires w.Fair() && ToEmbed(w, c, role, texts, disk, todo) && k <= |todo|
    requires ToEmbed(w, c, role, texts, Interrupted(w, c, role, disk, todo, k, outcome), again)
    ensures forall t :: t in again <==> Redone(w, c, role, texts, disk, todo, k, outcome, t)
  {
    hide Interrupted, World.Fair, World.Key, Has;
    forall t ensures t in again <==> Redone(w, c, role, texts, disk, todo, k, outcome, t) {
      AfterHas(w, c, role, disk, todo, k, outcome, t);
      ReadableHas(disk, w.Key(c, role, t));
      SplitAt(todo, k, t);
    }
  }

  /** Where an element of a list stands, if it is in it. */
  lemma SplitAt(todo: seq<Sized>, k: nat, t: Sized)
    requires Distinct(todo) && k <= |todo|
    ensures t in todo <==> t in todo[..k] || t in todo[k..]
    ensures !(t in todo[..k] && t in todo[k..])
    ensures k > 0 ==> (t in todo[..k] <==> t == todo[0] || t in todo[..k][1..])
    ensures k > 0 ==> todo[0] !in todo[..k][1..]
    ensures k < |todo| ==> (t in todo[k..] <==> t == todo[k] || t in todo[k + 1..])
    ensures k < |todo| ==> todo[k] !in todo[k + 1..]
  {
    assert todo == todo[..k] + todo[k..];
    if k > 0 {
      assert todo[..k] == [todo[0]] + todo[..k][1..];
    }
    if k < |todo| {
      assert todo[k..] == [todo[k]] + todo[k + 1..];
    }
  }

  /** After a run that got to its end, nothing is embedded again exactly when the
      file had no torn line or the run had nothing to write, and at most two texts
      otherwise. */
  lemma RerunEmbedsLittle(w: World, c: Sized, role: Role, texts: seq<Sized>, disk: Disk, todo: seq<Sized>,
                          again: seq<Sized>)
    requires w.Fair() && ToEmbed(w, c, role, texts, disk, todo)
    requires ToEmbed(w, c, role, texts, Interrupted(w, c, role, disk, todo, |todo|, Nothing), again)
    ensures again == [] <==> disk.tail.None? || todo == []
    ensures |again| <= 2
  {
    RerunEmbedsExactly(w, c, role, texts, disk, todo, |todo|, Nothing, again);
    hide Interrupted, World.Fair, World.Key, Has;
    var first := if todo == [] then "" else todo[0];
    forall i, j | 0 <= i < j < |again| ensures disk.tail.Some? && (again[i] == first || again[j] == first) {
      RedoneOnce(w, c, role, texts, disk, todo, again[i], again[j]);
    }
    RedoneOnly(w, c, role, texts, disk, todo, again);
    AtMostTwo(again, first);
  }

  lemma RedoneOnce(w: World, c: Sized, role: Role, texts: seq<Sized>, disk: Disk, todo: seq<Sized>,
                   t: Sized, u: Sized)
    requires w.Fair() && t != u
    requires Redone(w, c, role, texts, disk, todo, |todo|, Nothing, t)
    requires Redone(w, c, role, texts, disk, todo, |todo|, Nothing, u)
    ensures disk.tail.Some? && todo != [] && (t == todo[0] || u == todo[0])
  {
    hide World.Fair, World.Key, Has;
    if w.Key(c, role, t) == w.Key(c, role, u) { KeyInjective(w, c, role, t, c, role, u); }
  }

  lemma RedoneOnly(w: World, c: Sized, role: Role, texts: seq<Sized>, disk: Disk, todo: seq<Sized>,
                   again: seq<Sized>)
    requires forall t :: t in again <==> Redone(w, c, role, texts, disk, todo, |todo|, Nothing, t)
    ensures again == [] <==> disk.tail.None? || todo == []
  {
    assert again != [] ==> again[0] in again;
    assert disk.tail.Some? && todo != [] ==> Redone(w, c, role, texts, disk, todo, |todo|, Nothing, todo[0]);
  }

  lemma AtMostTwo(s: seq<Sized>, first: Sized)
    requires Distinct(s) && forall i, j | 0 <= i < j < |s| :: s[i] == first || s[j] == first
    ensures |s| <= 2
  {
    if |s| > 2 { OthersOfThree(s, first); }
  }

  lemma OthersOfThree(s: seq<Sized>, first: Sized)
    requires Distinct(s) && |s| > 2
    ensures exists i, j | 0 <= i < j < |s| :: s[i] != first && s[j] != first
  {
    if s[0] == first {
      assert s[1] != first && s[2] != first;
    } else if s[1] == first {
      assert s[0] != first && s[2] != first;
    } else {
      assert s[0] != first && s[1] != first;
    }
  }

  /** So it is for documents, in either order of embedding: `Docs` leaves such a
      file when it is stopped by a failure. */
  lemma DocsRerun(w: World, c: Sized, texts: seq<Sized>, byLength: bool, disk: Disk, k: nat, outcome: Outcome)
    requires w.Fair() && k <= |Todo(w, c, texts, byLength, map[], Load(disk.Readable(), None))|
    ensures var todo := Todo(w, c, texts, byLength, map[], Load(disk.Readable(), None));
      var after := Interrupted(w, c, Doc, disk, todo, k, outcome);
      var again := Todo(w, c, texts, byLength, map[], Load(after.Readable(), None));
      && Distinct(again)
      && (forall t :: t in again <==> Redone(w, c, Doc, texts, disk, todo, k, outcome, t))
      && (k == |todo| ==> |again| <= 2 && (again == [] <==> disk.tail.None? || todo == []))
  {
    var todo := Todo(w, c, texts, byLength, map[], Load(disk.Readable(), None));
    var after := Interrupted(w, c, Doc, disk, todo, k, outcome);
    var again := Todo(w, c, texts, byLength, map[], Load(after.Readable(), None));
    TodoIsToEmbed(w, c, texts, byLength, disk);
    TodoIsToEmbed(w, c, texts, byLength, after);
    RerunEmbedsExactly(w, c, Doc, texts, disk, todo, k, outcome, again);
    if k == |todo| { RerunEmbedsLittle(w, c, Doc, texts, disk, todo, again); }
  }

  /** And for queries, which are embedded in the order they come; `Queries` leaves
      such a file too. */
  lemma QueriesRerun(w: World, c: Sized, texts: seq<Sized>, disk: Disk, k: nat, outcome: Outcome)
    requires w.Fair() && k <= |Missing(w, c, Query, texts, map[], Load(disk.Readable(), None))|
    ensures var todo := Missing(w, c, Query, texts, map[], Load(disk.Readable(), None));
      var after := Interrupted(w, c, Query, disk, todo, k, outcome);
      var again := Missing(w, c, Query, texts, map[], Load(after.Readable(), None));
      && Distinct(again)
      && (forall t :: t in again <==> Redone(w, c, Query, texts, disk, todo, k, outcome, t))
      && (k == |todo| ==> |again| <= 2 && (again == [] <==> disk.tail.None? || todo == []))
  {
    var todo := Missing(w, c, Query, texts, map[], Load(disk.Readable(), None));
    var after := Interrupted(w, c, Query, disk, todo, k, outcome);
    var again := Missing(w, c, Query, texts, map[], Load(after.Readable(), None));
    MissingIsToEmbed(w, c, Query, texts, disk);
    MissingIsToEmbed(w, c, Query, texts, after);
    RerunEmbedsExactly(w, c, Query, texts, disk, todo, k, outcome, again);
    if k == |todo| { RerunEmbedsLittle(w, c, Query, texts, disk, todo, again); }
  }
}
