/** The embedding cache's keys and its file of lines, shared by eval_measure and
    eval_fusion (examples/eval_measure/main.rs, examples/eval_fusion/main.rs). */
module CacheKey {
  import opened Prelude

  const WIDTH := 8
  const SPAN := 0x1_0000_0000_0000_0000

  /** Text whose length fits the 64 bits of its prefix, as any text in memory does. */
  type Sized = t: Text | |t| < SPAN

  /** An element is a finite f32, which is a whole number of units of 2^-149; the
      number of units stands for it. */
  type Vector = seq<int>

  datatype Role = Doc | Query {
    function Name(): Sized {
      if Doc? then "doc" else "query"
    }
  }

  // ---------------------------------------------------------------------
  // The bytes that are hashed
  // ---------------------------------------------------------------------

  function LittleEndian(n: nat, width: nat): (bytes: Text)
    ensures |bytes| == width
  {
    if width == 0 then [] else [(n % 256) as char] + LittleEndian(n / 256, width - 1)
  }

  function Part(p: Sized): Text {
    LittleEndian(|p|, WIDTH) + p
  }

  function KeyBytes(contract: Sized, role: Role, text: Sized): Text {
    Part(contract) + Part(role.Name()) + Part(text)
  }

  function Pow256(width: nat): nat {
    if width == 0 then 1 else 256 * Pow256(width - 1)
  }

  lemma {:induction false} LittleEndianInjective(m: nat, n: nat, width: nat)
    requires m < Pow256(width) && n < Pow256(width)
    requires LittleEndian(m, width) == LittleEndian(n, width)
    ensures m == n
  {
    if width > 0 {
      var a, b := LittleEndian(m, width), LittleEndian(n, width);
      assert a[0] == b[0] && a[1..] == b[1..];
      assert m % 256 == n % 256;
      LittleEndianInjective(m / 256, n / 256, width - 1);
    }
  }

  /** A length-prefixed part is cut off its string in one way only. */
  lemma PartInjective(p: Sized, q: Sized, x: Text, y: Text)
    requires Part(p) + x == Part(q) + y
    ensures p == q && x == y
  {
    hide LittleEndian;
    var s, t := Part(p) + x, Part(q) + y;
    assert s[..WIDTH] == LittleEndian(|p|, WIDTH) && t[..WIDTH] == LittleEndian(|q|, WIDTH);
    assert Pow256(8) == SPAN;
    LittleEndianInjective(|p|, |q|, WIDTH);
    var n := WIDTH + |p|;
    assert s[WIDTH..n] == p && t[WIDTH..n] == q;
    assert s[n..] == x && t[n..] == y;
  }

  lemma KeyBytesInjective(c: Sized, role: Role, text: Sized, c': Sized, role': Role, text': Sized)
    requires KeyBytes(c, role, text) == KeyBytes(c', role', text')
    ensures c == c' && role == role' && text == text'
  {
    hide Part;
    var r, r' := role.Name(), role'.Name();
    assert KeyBytes(c, role, text) == Part(c) + (Part(r) + Part(text));
    assert KeyBytes(c', role', text') == Part(c') + (Part(r') + Part(text'));
    PartInjective(c, c', Part(r) + Part(text), Part(r') + Part(text'));
    PartInjective(r, r', Part(text), Part(text'));
    assert |r| == |r'|;
    assert Part(text) + [] == Part(text) && Part(text') + [] == Part(text');
    PartInjective(text, text', [], []);
  }

  /** What bytes say, the lowest first. */
  function ValueOf(bytes: Text): nat {
    if bytes == [] then 0 else bytes[0] as nat + 256 * ValueOf(bytes[1..])
  }

  lemma {:induction false} LittleEndianIsValue(n: nat, width: nat)
    requires n < Pow256(width)
    ensures ValueOf(LittleEndian(n, width)) == n
  {
    if width > 0 {
      LittleEndianIsValue(n / 256, width - 1);
      assert LittleEndian(n, width)[1..] == LittleEndian(n / 256, width - 1);
      assert LittleEndian(n, width)[0] as nat == n % 256;
    }
  }

  lemma SpanIs()
    ensures Pow256(8) == SPAN
  {}

  /** What is hashed: contract, role name and text, each behind its length in
      eight bytes. */
  lemma KeyBytesAre(contract: Sized, role: Role, text: Sized) returns (a: Text, b: Text, c: Text)
    ensures KeyBytes(contract, role, text)
         == a + contract + b + (if role == Doc then "doc" else "query") + c + text
    ensures |a| == |b| == |c| == 8
    ensures ValueOf(a) == |contract| && ValueOf(b) == (if role == Doc then 3 else 5) && ValueOf(c) == |text|
  {
    SpanIs();
    var name := role.Name();
    assert name == if role == Doc then "doc" else "query";
    a, b, c := LittleEndian(|contract|, 8), LittleEndian(|name|, 8), LittleEndian(|text|, 8);
    hide LittleEndian, Pow256, ValueOf, Role.Name;
    LittleEndianIsValue(|contract|, 8);
    LittleEndianIsValue(|name|, 8);
    LittleEndianIsValue(|text|, 8);
    Regroup(a + contract, b, name, c, text);
  }

  lemma Regroup(a: Text, b: Text, c: Text, d: Text, e: Text)
    ensures a + (b + c) + (d + e) == a + b + c + d + e
  {}

  // ---------------------------------------------------------------------
  // Hash and embedders
  // ---------------------------------------------------------------------

  /** The hash, and what the embedder of each contract answers. */
  datatype World = World(hash: Text -> Text, vector: (Sized, Role, Sized) -> Vector, dim: Sized -> nat) {

    /** The hash has no collisions, and an embedder's vectors have its width. */
    ghost predicate Fair() {
      && (forall a, b :: hash(a) == hash(b) ==> a == b)
      && (forall c, role, text :: |vector(c, role, text)| == dim(c))
    }

    function Key(contract: Sized, role: Role, text: Sized): Text {
      hash(KeyBytes(contract, role, text))
    }
  }

  lemma KeyInjective(w: World, c: Sized, role: Role, text: Sized, c': Sized, role': Role, text': Sized)
    requires w.Fair() && w.Key(c, role, text) == w.Key(c', role', text')
    ensures c == c' && role == role' && text == text'
  {
    KeyBytesInjective(c, role, text, c', role', text');
  }

  // ---------------------------------------------------------------------
  // The file
  // ---------------------------------------------------------------------

  /** What a reader makes of one line: an entry, text that is no entry, or
      bytes that are no text. */
  datatype Line = Entry(key: Text, v: Vector) | Garbage | NotText

  /** Whole lines, and the line at the end that has no newline yet. */
  datatype Disk = Disk(lines: seq<Line>, tail: Option<Line>) {
    function Readable(): seq<Line> {
      lines + if tail.Some? then [tail.value] else []
    }
  }

  /** How a write ends: all of it, a part of it (perhaps all but the newline),
      or none of it. */
  datatype Outcome = Full | Partial(whole: bool) | Nothing

  /** Appending a line. One that is put behind a torn line is lost with it;
      `CacheText.FileReadsAsModel` proves this of the bytes. */
  function Written(disk: Disk, line: Line, outcome: Outcome): Disk {
    var seen := if disk.tail.None? then line else Garbage;
    match outcome
    case Nothing => disk
    case Full => Disk(disk.lines + [seen], None)
    case Partial(whole) => Disk(disk.lines, Some(if whole then seen else Garbage))
  }

  /** Appending several lines without an error. */
  function WrittenAll(disk: Disk, lines: seq<Line>): Disk {
    if lines == [] then disk
    else if disk.tail.None? then Disk(disk.lines + lines, None)
    else Disk(disk.lines + [Garbage] + lines[1..], None)
  }

  lemma WrittenOneMore(disk: Disk, lines: seq<Line>, line: Line)
    ensures Written(WrittenAll(disk, lines), line, Full) == WrittenAll(disk, lines + [line])
  {
    if lines == [] {
      assert ([] + [line])[1..] == [];
      assert disk.lines + [Garbage] + [] == disk.lines + [Garbage];
    } else {
      assert (lines + [line])[1..] == lines[1..] + [line];
      assert disk.lines + (lines + [line]) == disk.lines + lines + [line];
    }
  }

  lemma WrittenInTwo(disk: Disk, a: seq<Line>, b: seq<Line>)
    ensures WrittenAll(WrittenAll(disk, a), b) == WrittenAll(disk, a + b)
  {
    if a == [] {
      assert a + b == b;
    } else {
      assert (a + b)[1..] == a[1..] + b;
      assert disk.lines + (a + b) == disk.lines + a + b;
      assert disk.lines + [Garbage] + (a[1..] + b) == disk.lines + [Garbage] + a[1..] + b;
      assert a + [] == a;
    }
  }

  function Accepts(line: Line, width: Option<nat>): bool {
    line.Entry? && (width.Some? ==> |line.v| == width.value)
  }

  /** The map a reader builds, with or without a check of the width. */
  function Load(lines: seq<Line>, width: Option<nat>): map<Text, Vector> {
    if lines == [] then map[]
    else
      var last := lines[|lines| - 1];
      var before := Load(lines[..|lines| - 1], width);
      if Accepts(last, width) then before[last.key := last.v] else before
  }

  /** The line that a key is read from. */
  predicate LastOf(lines: seq<Line>, width: Option<nat>, key: Text, i: int) {
    && 0 <= i < |lines| && Accepts(lines[i], width) && lines[i].key == key
    && (forall j | i < j < |lines| :: !(Accepts(lines[j], width) && lines[j].key == key))
  }

  lemma {:induction false} LoadedExactly(lines: seq<Line>, width: Option<nat>, key: Text)
    ensures key in Load(lines, width) <==> exists i :: LastOf(lines, width, key, i)
    ensures forall i | LastOf(lines, width, key, i) ::
              key in Load(lines, width) && Load(lines, width)[key] == lines[i].v
  {
    if lines != [] {
      var n := |lines| - 1;
      var before := lines[..n];
      LoadedExactly(before, width, key);
      if Accepts(lines[n], width) && lines[n].key == key {
        assert LastOf(lines, width, key, n);
      } else {
        forall i ensures LastOf(lines, width, key, i) == LastOf(before, width, key, i) {}
      }
    }
  }

  /** The entry a cache appends for a text. */
  function EntryFor(w: World, c: Sized, role: Role, text: Sized): Line {
    Entry(w.Key(c, role, text), w.vector(c, role, text))
  }

  /** An entry that holds what the embedder it is keyed to would answer. */
  ghost predicate Right(w: World, line: Line) {
    line.Entry? ==>
      forall c, role, text | w.Key(c, role, text) == line.key :: line.v == w.vector(c, role, text)
  }

  /** An entry that, if damaged, has lost its width. */
  ghost predicate RightOrCut(w: World, line: Line) {
    line.Entry? ==>
      forall c, role, text | w.Key(c, role, text) == line.key ::
        line.v == w.vector(c, role, text) || |line.v| != w.dim(c)
  }

  lemma EntryForIsRight(w: World, c: Sized, role: Role, text: Sized)
    requires w.Fair()
    ensures Right(w, EntryFor(w, c, role, text))
  {
    var key := w.Key(c, role, text);
    forall c', role', text' | w.Key(c', role', text') == key
      ensures w.vector(c, role, text) == w.vector(c', role', text')
    {
      KeyInjective(w, c, role, text, c', role', text');
    }
  }

  /** What a run that may not trust the file's width reads. */
  ghost predicate ServesRight(w: World, c: Sized, loaded: map<Text, Vector>) {
    forall role, text :: w.Key(c, role, text) in loaded ==>
      loaded[w.Key(c, role, text)] == w.vector(c, role, text)
  }

  /** A reader that checks the width serves right vectors from any file whose
      damage shows in the width or in the syntax. */
  lemma CheckedLoadServesRight(w: World, c: Sized, lines: seq<Line>)
    requires w.Fair() && forall line | line in lines :: RightOrCut(w, line)
    ensures ServesRight(w, c, Load(lines, Some(w.dim(c))))
  {
    var loaded := Load(lines, Some(w.dim(c)));
    forall role, text | w.Key(c, role, text) in loaded
      ensures loaded[w.Key(c, role, text)] == w.vector(c, role, text)
    {
      var key := w.Key(c, role, text);
      LoadedExactly(lines, Some(w.dim(c)), key);
      var i :| LastOf(lines, Some(w.dim(c)), key, i);
      assert RightOrCut(w, lines[i]);
    }
  }

  /** One that does not check it serves right vectors exactly when no text's
      last entry has lost its width. */
  lemma UncheckedLoadServesRightExactWhen(w: World, c: Sized, lines: seq<Line>)
    requires w.Fair() && forall line | line in lines :: RightOrCut(w, line)
    ensures ServesRight(w, c, Load(lines, None)) <==>
            forall role, text, i | LastOf(lines, None, w.Key(c, role, text), i) :: |lines[i].v| == w.dim(c)
  {
    var loaded := Load(lines, None);
    forall role, text
      ensures w.Key(c, role, text) in loaded <==> exists i :: LastOf(lines, None, w.Key(c, role, text), i)
      ensures forall i | LastOf(lines, None, w.Key(c, role, text), i) ::
                && w.Key(c, role, text) in loaded
                && loaded[w.Key(c, role, text)] == lines[i].v
                && (lines[i].v == w.vector(c, role, text) <==> |lines[i].v| == w.dim(c))
    {
      LoadedExactly(lines, None, w.Key(c, role, text));
      forall i | LastOf(lines, None, w.Key(c, role, text), i)
        ensures lines[i].v == w.vector(c, role, text) <==> |lines[i].v| == w.dim(c)
      {
        assert RightOrCut(w, lines[i]);
      }
    }
  }

  /** A file with one shortened line, which the reader without the check serves. */
  lemma UncheckedLoadServesCutVector(w: World, c: Sized, role: Role, text: Sized)
    requires w.Fair() && w.dim(c) > 0
    ensures var lines := [Entry(w.Key(c, role, text), w.vector(c, role, text)[1..])];
         && (forall line | line in lines :: RightOrCut(w, line))
         && !ServesRight(w, c, Load(lines, None))
  {
    var key := w.Key(c, role, text);
    var v := w.vector(c, role, text)[1..];
    var lines := [Entry(key, v)];
    forall c', role', text' | w.Key(c', role', text') == key
      ensures |v| != w.dim(c')
    {
      KeyInjective(w, c, role, text, c', role', text');
    }
    assert LastOf(lines, None, key, 0);
    LoadedExactly(lines, None, key);
  }

  /** With the width check, a key is found exactly when some entry of the right
      width has it, and the last such entry is what is found. */
  lemma CheckedLoadFinds(lines: seq<Line>, width: nat, key: Text)
    ensures key in Load(lines, Some(width)) <==>
      exists i :: 0 <= i < |lines| && lines[i].Entry? && lines[i].key == key && |lines[i].v| == width
    ensures forall i | 0 <= i < |lines| && lines[i].Entry? && lines[i].key == key && |lines[i].v| == width
                       && (forall j | i < j < |lines| ::
                             !(lines[j].Entry? && lines[j].key == key && |lines[j].v| == width)) ::
              key in Load(lines, Some(width)) && Load(lines, Some(width))[key] == lines[i].v
  {
    LoadedExactly(lines, Some(width), key);
    LastAccepted(lines, Some(width), key);
    hide Load;
    forall i | 0 <= i < |lines| && lines[i].Entry? && lines[i].key == key && |lines[i].v| == width
               && (forall j | i < j < |lines| ::
                     !(lines[j].Entry? && lines[j].key == key && |lines[j].v| == width))
      ensures LastOf(lines, Some(width), key, i)
    {}
  }

  /** Of the accepted lines with a key, one is the last. */
  lemma {:induction false} LastAccepted(lines: seq<Line>, width: Option<nat>, key: Text)
    ensures (exists i :: LastOf(lines, width, key, i)) <==>
            exists i :: 0 <= i < |lines| && Accepts(lines[i], width) && lines[i].key == key
  {
    if i :| 0 <= i < |lines| && Accepts(lines[i], width) && lines[i].key == key {
      var last := LastFrom(lines, width, key, i);
    }
  }

  lemma LastFrom(lines: seq<Line>, width: Option<nat>, key: Text, i: nat) returns (last: nat)
    requires i < |lines| && Accepts(lines[i], width) && lines[i].key == key
    ensures LastOf(lines, width, key, last)
    decreases |lines| - i
  {
    if j :| i < j < |lines| && Accepts(lines[j], width) && lines[j].key == key {
      last := LastFrom(lines, width, key, j);
    } else {
      last := i;
    }
  }
}
