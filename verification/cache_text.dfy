/** The cache file as bytes: what writes that end anywhere leave on disk, and
    what a reader that splits at newlines and parses each line makes of it. */
module CacheText {
  import opened Prelude
  import opened JsonText
  import opened JsonRoundTrip
  import opened JsonGlued
  import opened CacheKey

  /** How a vector's elements are printed and read. */
  datatype Digits = Digits(print_: int -> Text, read: Text -> int) {
    /** Printing loses nothing; `DecimalIsExact` has one such way to print. */
    ghost predicate Exact() {
      forall x :: IsNumber(print_(x)) && read(print_(x)) == x
    }
  }

  // ---------------------------------------------------------------------
  // Digits that lose nothing
  // ---------------------------------------------------------------------

  function DigitsOf(n: nat): (t: Text)
    ensures t != [] && forall i | 0 <= i < |t| :: IsDigit(t[i])
  {
    (if n < 10 then [] else DigitsOf(n / 10)) + [('0' as int + n % 10) as char]
  }

  function NumberOf(t: Text): int {
    if t == [] then 0 else 10 * NumberOf(t[..|t| - 1]) + (t[|t| - 1] as int - '0' as int)
  }

  function Decimal(): Digits {
    Digits(x => if x < 0 then ['-'] + DigitsOf(-x) else DigitsOf(x),
           t => if t != [] && t[0] == '-' then -NumberOf(t[1..]) else NumberOf(t))
  }

  lemma NumberOfMore(front: Text, digit: nat)
    requires digit < 10
    ensures NumberOf(front + [('0' as int + digit) as char]) == 10 * NumberOf(front) + digit
  {
    var t := front + [('0' as int + digit) as char];
    assert t[..|t| - 1] == front;
  }

  lemma {:induction false} DigitsAreRead(n: nat)
    ensures NumberOf(DigitsOf(n)) == n
    ensures DigitsOf(n)[0] == '0' <==> n == 0
  {
    hide NumberOf;
    if n < 10 {
      NumberOfMore([], n);
      NumberOfNone();
      assert [] + [('0' as int + n) as char] == [('0' as int + n) as char];
    } else {
      DigitsAreRead(n / 10);
      NumberOfMore(DigitsOf(n / 10), n % 10);
    }
  }

  lemma NumberOfNone()
    ensures NumberOf([]) == 0
  {}

  lemma {:induction false} DigitsAreDropped(t: Text)
    requires forall i | 0 <= i < |t| :: IsDigit(t[i])
    ensures DropDigits(t) == []
  {
    if t != [] { DigitsAreDropped(t[1..]); }
  }

  lemma DigitsAreUnsigned(n: nat)
    ensures IsUnsigned(DigitsOf(n)) && DigitsOf(n)[0] != '-'
  {
    var t := DigitsOf(n);
    DigitsAreRead(n);
    DigitsAreDropped(t);
    if n == 0 { assert t == ['0'] && t[1..] == []; }
  }

  /** Whole numbers in decimal are JSON numbers and read back as themselves. */
  lemma DecimalIsExact()
    ensures Decimal().Exact()
  {
    hide DigitsOf, NumberOf, IsUnsigned;
    var d := Decimal();
    forall x ensures IsNumber(d.print_(x)) && d.read(d.print_(x)) == x {
      var n := if x < 0 then -x else x;
      DigitsAreUnsigned(n);
      DigitsAreRead(n);
      if x < 0 { assert (['-'] + DigitsOf(n))[1..] == DigitsOf(n); }
    }
  }

  // ---------------------------------------------------------------------
  // One line
  // ---------------------------------------------------------------------

  /** The object that `keep` prints. */
  function EntryJson(d: Digits, key: Text, v: Vector): Json {
    Object([Member("key", String(key)), Member("v", Array(Elements(d, v)))])
  }

  function Elements(d: Digits, v: Vector): (items: seq<Json>)
    ensures |items| == |v|
  {
    seq(|v|, i requires 0 <= i < |v| => Number(d.print_(v[i])))
  }

  /** The value of a field that an object has exactly once. */
  function Field(members: seq<Member>, name: Text): Option<Json> {
    if members == [] then None
    else
      var rest := Field(members[1..], name);
      if members[0].key != name then rest
      else if HasKey(members[1..], name) then None
      else Some(members[0].value)
  }

  function ReadVector(d: Digits, items: seq<Json>): Option<Vector> {
    if items == [] then Some([])
    else
      match (items[0], ReadVector(d, items[1..]))
      case (Number(token), Some(v)) => Some([d.read(token)] + v)
      case _ => None
  }

  /** What a reader makes of a line's text. */
  function Classify(d: Digits, text: Text): Line {
    match Parse(text)
    case Some(Object(members)) =>
      (match (Field(members, "key"), Field(members, "v"))
       case (Some(String(key)), Some(Array(items))) =>
         (match ReadVector(d, items)
          case Some(v) => Entry(key, v)
          case None => Garbage)
       case _ => Garbage)
    case _ => Garbage
  }

  lemma ExactAt(d: Digits, x: int)
    requires d.Exact()
    ensures IsNumber(d.print_(x)) && d.read(d.print_(x)) == x
  {
    hide IsNumber;
  }

  lemma ElementsWellFormed(d: Digits, v: Vector)
    requires d.Exact()
    ensures forall i | 0 <= i < |v| :: WellFormed(Elements(d, v)[i])
  {
    hide IsNumber, Digits.Exact;
    forall i | 0 <= i < |v| ensures WellFormed(Elements(d, v)[i]) {
      ExactAt(d, v[i]);
    }
  }

  lemma {:induction false} ReadsElements(d: Digits, v: Vector)
    requires d.Exact()
    ensures ReadVector(d, Elements(d, v)) == Some(v)
  {
    if v != [] {
      ReadsElements(d, v[1..]);
      assert Elements(d, v)[1..] == Elements(d, v[1..]);
      assert Elements(d, v)[0] == Number(d.print_(v[0]));
      ExactAt(d, v[0]);
      assert [v[0]] + v[1..] == v;
    }
  }

  /** An entry is a proper piece, whole or cut, and shows no newline. */
  lemma EntryIsProper(d: Digits, key: Text, v: Vector)
    requires d.Exact()
    ensures var json := EntryJson(d, key, v);
      && WellFormed(json) && Visible(Print(json)) && "{\"k" <= Print(json)
  {
    var json := EntryJson(d, key, v);
    ElementsWellFormed(d, v);
    hide IsNumber, Elements;
    assert WellFormed(String(key)) && WellFormed(Array(Elements(d, v)));
    PrintVisible(json);
    var name: Text := "key";
    PlainEscape(name);
    var m := json.members;
    PrintMembersStep(m);
    EntryStarts(name, Quote(name), PrintMembers(m), Print(json));
  }

  lemma EntryStarts(name: Text, quoted: Text, inside: Text, text: Text)
    requires name == "key" && quoted == ['"'] + name + ['"'] && quoted <= inside
    requires text == ['{'] + inside + ['}']
    ensures "{\"k" <= text
  {
    assert inside[0] == quoted[0] && inside[1] == quoted[1];
    assert text[0] == '{' && text[1] == '"' && text[2] == 'k';
  }

  lemma EntryIsRead(d: Digits, key: Text, v: Vector)
    requires d.Exact()
    ensures Classify(d, Print(EntryJson(d, key, v))) == Entry(key, v)
  {
    EntryIsProper(d, key, v);
    PrintedValueParses(EntryJson(d, key, v));
    ReadsElements(d, v);
    EntryFields(String(key), Array(Elements(d, v)));
  }

  lemma EntryFields(key: Json, v: Json)
    ensures var m := [Member("key", key), Member("v", v)];
      Field(m, "key") == Some(key) && Field(m, "v") == Some(v)
  {
    var m := [Member("key", key), Member("v", v)];
    assert m[1..] == [Member("v", v)] && m[1..][1..] == [];
    assert |"key"| != |"v"|;
    assert !HasKey(m[1..], "key") && !HasKey([], "v");
  }

  // ---------------------------------------------------------------------
  // The file
  // ---------------------------------------------------------------------

  /** One append: its entry, and how many bytes of the line reached the file. */
  datatype Append = Append(key: Text, v: Vector, n: nat)

  function Chunk(d: Digits, a: Append): Text {
    Print(EntryJson(d, a.key, a.v)) + ['\n']
  }

  predicate Fits(d: Digits, a: Append) {
    a.n <= |Chunk(d, a)|
  }

  predicate AllFit(d: Digits, appends: seq<Append>) {
    forall i | 0 <= i < |appends| :: Fits(d, appends[i])
  }

  function OutcomeOf(d: Digits, a: Append): Outcome
    requires Fits(d, a)
  {
    if a.n == 0 then Nothing
    else if a.n == |Chunk(d, a)| then Full
    else Partial(a.n == |Chunk(d, a)| - 1)
  }

  /** The bytes that some appends leave, one after the other. */
  function FileBytes(d: Digits, appends: seq<Append>): Text
    requires AllFit(d, appends)
  {
    if appends == [] then []
    else
      var n := |appends| - 1;
      FileBytes(d, appends[..n]) + Chunk(d, appends[n])[..appends[n].n]
  }

  /** The same file as the cache model has it. */
  function FileModel(d: Digits, appends: seq<Append>): Disk
    requires AllFit(d, appends)
  {
    if appends == [] then Disk([], None)
    else
      var n := |appends| - 1;
      Written(FileModel(d, appends[..n]), Entry(appends[n].key, appends[n].v), OutcomeOf(d, appends[n]))
  }

  /** What a reader of the bytes sees, line by line. */
  function Reads(d: Digits, bytes: Text): (lines: seq<Line>)
    ensures |lines| == |SplitLines(bytes)|
  {
    var texts := SplitLines(bytes);
    seq(|texts|, i requires 0 <= i < |texts| => Classify(d, texts[i]))
  }

  function Ended(texts: seq<Text>): Text {
    if texts == [] then [] else texts[0] + ['\n'] + Ended(texts[1..])
  }

  /** What a reader makes of lines without a newline in them. */
  ghost predicate LinesAre(d: Digits, texts: seq<Text>, lines: seq<Line>) {
    |texts| == |lines| && forall i | 0 <= i < |texts| :: Visible(texts[i]) && Classify(d, texts[i]) == lines[i]
  }

  lemma LinesOneMore(d: Digits, texts: seq<Text>, lines: seq<Line>, text: Text)
    requires LinesAre(d, texts, lines) && Visible(text)
    ensures LinesAre(d, texts + [text], lines + [Classify(d, text)])
  {
    hide Classify, Visible;
  }

  /** Bytes and model agree: ended lines, and the pieces that make up the tail. */
  ghost predicate Agrees(d: Digits, bytes: Text, disk: Disk, texts: seq<Text>, ps: seq<Piece>) {
    && AllProper(ps) && (forall p | p in ps :: Visible(Print(p.v)))
    && bytes == Ended(texts) + Glue(ps)
    && LinesAre(d, texts, disk.lines)
    && disk.tail == if ps == [] then None else Some(Classify(d, Glue(ps)))
  }

  lemma {:induction false} GlueAppend(ps: seq<Piece>, p: Piece)
    requires AllProper(ps) && Proper(p)
    ensures AllProper(ps + [p]) && Glue(ps + [p]) == Glue(ps) + p.Bytes()
  {
    hide Print, WellFormed, Piece.Bytes;
    if ps == [] {
      assert [] + [p] == [p] && [p][1..] == [];
      assert p.Bytes() + [] == p.Bytes();
    } else {
      assert (ps + [p])[0] == ps[0] && (ps + [p])[1..] == ps[1..] + [p];
      assert ps[0] in ps;
      GlueAppend(ps[1..], p);
      Associate(ps[0].Bytes(), Glue(ps[1..]), p.Bytes());
    }
  }

  lemma {:induction false} GlueVisible(ps: seq<Piece>)
    requires AllProper(ps) && forall p | p in ps :: Visible(Print(p.v))
    ensures Visible(Glue(ps))
  {
    if ps != [] {
      assert ps[0] in ps;
      GlueVisible(ps[1..]);
    }
  }

  /** A tail is an entry if it is one whole entry, and garbage otherwise. */
  lemma TailClass(d: Digits, ps: seq<Piece>, a: Append, n: nat)
    requires d.Exact() && AllProper(ps) && 0 < n <= |Print(EntryJson(d, a.key, a.v))|
    requires Proper(Piece(EntryJson(d, a.key, a.v), n))
    ensures var json := EntryJson(d, a.key, a.v);
      var all := ps + [Piece(json, n)];
      AllProper(all) &&
      Classify(d, Glue(all)) == if ps == [] && n == |Print(json)| then Entry(a.key, a.v) else Garbage
  {
    var json := EntryJson(d, a.key, a.v);
    var p := Piece(json, n);
    GlueAppend(ps, p);
    GlueParses(ps + [p]);
    hide Glue, EntryJson, Print, Field, ReadVector, Proper;
    if ps == [] {
      assert [] + [p] == [p];
      if n == |Print(json)| {
        EntryIsRead(d, a.key, a.v);
        EntryIsProper(d, a.key, a.v);
        PrintedValueParses(json);
      }
    }
  }

  lemma {:induction false} EndedAppend(texts: seq<Text>, last: Text)
    ensures Ended(texts + [last]) == Ended(texts) + last + ['\n']
  {
    if texts == [] {
      assert [] + [last] == [last] && [last][1..] == [];
    } else {
      assert (texts + [last])[1..] == texts[1..] + [last];
      EndedAppend(texts[1..], last);
    }
  }

  lemma {:induction false} SplitEnded(texts: seq<Text>, tail: Text)
    requires Visible(tail) && forall i | 0 <= i < |texts| :: Visible(texts[i])
    ensures SplitLines(Ended(texts) + tail) == texts + if tail == [] then [] else [tail]
  {
    if texts == [] {
      assert Ended([]) + tail == tail;
      if tail != [] { assert NewlineAt(tail) == |tail|; }
    } else {
      var first := texts[0] + ['\n'];
      assert Ended(texts) + tail == first + (Ended(texts[1..]) + tail);
      hide SplitLines, Ended;
      assert Framed(first);
      SplitFirst(first, Ended(texts[1..]) + tail);
      SplitEnded(texts[1..], tail);
      assert first[..|first| - 1] == texts[0];
      assert [texts[0]] + texts[1..] == texts;
    }
  }

  lemma PieceOf(d: Digits, a: Append, n: nat) returns (p: Piece)
    requires d.Exact() && 0 < n <= |Print(EntryJson(d, a.key, a.v))|
    ensures p == Piece(EntryJson(d, a.key, a.v), n) && Proper(p) && Visible(Print(p.v))
    ensures p.Bytes() == Chunk(d, a)[..n]
  {
    EntryIsProper(d, a.key, a.v);
    hide EntryJson, Print, WellFormed, Visible;
    p := Piece(EntryJson(d, a.key, a.v), n);
    ObjectIs(d, a);
  }

  /** An append that does not get as far as its newline. */
  lemma TailAgrees(d: Digits, bytes: Text, disk: Disk, texts: seq<Text>, ps: seq<Piece>, a: Append)
      returns (ps': seq<Piece>)
    requires d.Exact() && Agrees(d, bytes, disk, texts, ps) && 0 < a.n < |Chunk(d, a)|
    ensures Agrees(d, bytes + Chunk(d, a)[..a.n], Written(disk, Entry(a.key, a.v), OutcomeOf(d, a)), texts, ps')
  {
    var p := PieceOf(d, a, a.n);
    hide EntryJson, Print, Classify, Glue, Ended, WellFormed, Visible;
    TailClass(d, ps, a, a.n);
    GlueAppend(ps, p);
    ps' := ps + [p];
    Associate(Ended(texts), Glue(ps), p.Bytes());
  }

  /** An append that ends its line. */
  lemma LineAgrees(d: Digits, bytes: Text, disk: Disk, texts: seq<Text>, ps: seq<Piece>, a: Append)
      returns (texts': seq<Text>)
    requires d.Exact() && Agrees(d, bytes, disk, texts, ps) && a.n == |Chunk(d, a)|
    requires |Print(EntryJson(d, a.key, a.v))| > 0
    ensures Agrees(d, bytes + Chunk(d, a)[..a.n], Written(disk, Entry(a.key, a.v), OutcomeOf(d, a)), texts', [])
  {
    var p := PieceOf(d, a, a.n - 1);
    hide EntryJson, Print, Classify, Glue, Ended, WellFormed, Visible;
    TailClass(d, ps, a, a.n - 1);
    GlueAppend(ps, p);
    var text := Glue(ps + [p]);
    texts' := texts + [text];
    GlueVisible(ps + [p]);
    assert Chunk(d, a)[..a.n] == p.Bytes() + ['\n'];
    LineEnds(texts, Glue(ps), p.Bytes(), text, bytes, bytes + Chunk(d, a)[..a.n]);
    GlueOfNone();
    LinesOneMore(d, texts, disk.lines, text);
    hide Chunk, Proper, Piece.Bytes, LinesAre;
  }

  lemma LineEnds(texts: seq<Text>, tail: Text, more: Text, text: Text, bytes: Text, bytes': Text)
    requires bytes == Ended(texts) + tail && bytes' == bytes + (more + ['\n']) && text == tail + more
    ensures bytes' == Ended(texts + [text]) + []
  {
    EndedAppend(texts, text);
    hide Ended;
    Lengthen(Ended(texts), tail, more);
  }

  /** One append, wherever it ends, keeps bytes and model in agreement. */
  lemma AppendAgrees(d: Digits, bytes: Text, disk: Disk, texts: seq<Text>, ps: seq<Piece>, a: Append)
      returns (texts': seq<Text>, ps': seq<Piece>)
    requires d.Exact() && Agrees(d, bytes, disk, texts, ps) && Fits(d, a)
    ensures Agrees(d, bytes + Chunk(d, a)[..a.n], Written(disk, Entry(a.key, a.v), OutcomeOf(d, a)), texts', ps')
  {
    texts', ps' := texts, ps;
    EntryIsProper(d, a.key, a.v);
    hide Agrees, EntryJson, Print;
    if a.n == 0 {
      assert bytes + Chunk(d, a)[..0] == bytes;
    } else {
      if a.n < |Chunk(d, a)| {
        ps' := TailAgrees(d, bytes, disk, texts, ps, a);
      } else {
        texts' := LineAgrees(d, bytes, disk, texts, ps, a);
        ps' := [];
      }
    }
  }

  lemma ObjectIs(d: Digits, a: Append)
    ensures EntryJson(d, a.key, a.v).Object?
  {}

  lemma GlueOfNone()
    ensures Glue([]) == []
  {}

  lemma Associate(a: Text, b: Text, c: Text)
    ensures a + b + c == a + (b + c)
  {}

  lemma Lengthen(a: Text, b: Text, c: Text)
    ensures a + b + (c + ['\n']) == a + (b + c) + ['\n'] + []
  {}

  lemma {:induction false} FileAgrees(d: Digits, appends: seq<Append>) returns (texts: seq<Text>, ps: seq<Piece>)
    requires d.Exact() && AllFit(d, appends)
    ensures Agrees(d, FileBytes(d, appends), FileModel(d, appends), texts, ps)
  {
    if appends == [] {
      texts, ps := [], [];
    } else {
      var n := |appends| - 1;
      texts, ps := FileAgrees(d, appends[..n]);
      texts, ps := AppendAgrees(d, FileBytes(d, appends[..n]), FileModel(d, appends[..n]), texts, ps, appends[n]);
    }
  }

  /** A reader of the bytes sees what the model of the file says, whatever
      appends were made and wherever each of them ended. */
  lemma FileReadsAsModel(d: Digits, appends: seq<Append>)
    requires d.Exact() && AllFit(d, appends)
    ensures Reads(d, FileBytes(d, appends)) == FileModel(d, appends).Readable()
  {
    var texts, ps := FileAgrees(d, appends);
    hide FileBytes, FileModel, SplitLines, Ended, Classify, Glue;
    GlueVisible(ps);
    GlueStarts(ps);
    SplitEnded(texts, Glue(ps));
  }

  // ---------------------------------------------------------------------
  // What runs over the file are served
  // ---------------------------------------------------------------------

  /** Each append is an entry for some contract, role and text. */
  ghost predicate Honest(w: World, appends: seq<Append>) {
    forall i | 0 <= i < |appends| :: IsEntry(w, appends[i])
  }

  ghost predicate IsEntry(w: World, a: Append) {
    exists c, role, text :: Entry(a.key, a.v) == EntryFor(w, c, role, text)
  }

  lemma {:induction false} ModelIsRight(w: World, d: Digits, appends: seq<Append>)
    requires w.Fair() && AllFit(d, appends) && Honest(w, appends)
    ensures forall line | line in FileModel(d, appends).Readable() :: Right(w, line)
  {
    if appends != [] {
      var n := |appends| - 1;
      ModelIsRight(w, d, appends[..n]);
      var a := appends[n];
      var c, role, text :| Entry(a.key, a.v) == EntryFor(w, c, role, text);
      EntryForIsRight(w, c, role, text);
      hide Right, EntryFor;
      RightOfWritten(w, FileModel(d, appends[..n]), Entry(a.key, a.v), OutcomeOf(d, a));
    }
  }

  lemma RightOfWritten(w: World, disk: Disk, line: Line, outcome: Outcome)
    requires Right(w, line) && forall seen | seen in disk.Readable() :: Right(w, seen)
    ensures forall seen | seen in Written(disk, line, outcome).Readable() :: Right(w, seen)
  {
    assert Right(w, Garbage);
    hide Right;
    forall seen | seen in disk.lines ensures Right(w, seen) {
      assert seen in disk.Readable();
    }
    forall seen | disk.tail == Some(seen) ensures Right(w, seen) {
      assert disk.Readable()[|disk.lines|] == seen;
    }
  }

  /** Any number of runs of any contracts append to one file, each append cut
      anywhere or not: a reader that parses the bytes line by line serves every
      contract only the vectors of its own embedder. */
  lemma BytesServeRight(w: World, d: Digits, appends: seq<Append>, c: Sized)
    requires w.Fair() && d.Exact() && AllFit(d, appends) && Honest(w, appends)
    ensures ServesRight(w, c, Load(Reads(d, FileBytes(d, appends)), None))
  {
    FileReadsAsModel(d, appends);
    ModelIsRight(w, d, appends);
    var lines := FileModel(d, appends).Readable();
    hide FileModel, FileBytes, Reads, Load, ServesRight;
    forall line | line in lines ensures RightOrCut(w, line) {
      assert Right(w, line);
    }
    UncheckedLoadServesRightExactWhen(w, c, lines);
    forall role, text, i | LastOf(lines, None, w.Key(c, role, text), i) ensures |lines[i].v| == w.dim(c) {
      assert Right(w, lines[i]);
    }
  }

  /** A hash, embedders that tell all texts apart, and digits for which all of
      this holds. */
  lemma FairWorldAndDigits() returns (w: World, d: Digits)
    ensures w.Fair() && d.Exact()
    ensures forall c: Sized, role: Role, text: Sized, text': Sized ::
              w.vector(c, role, text) == w.vector(c, role, text') ==> text == text'
  {
    w := World(t => t, (c, role, text) => [ByteNumber(text)], c => 1);
    d := Decimal();
    DecimalIsExact();
    hide Digits.Exact, ByteNumber;
    forall c: Sized, role: Role, text: Sized, text': Sized | w.vector(c, role, text) == w.vector(c, role, text')
      ensures text == text' {
      assert ByteNumber(text) == w.vector(c, role, text)[0] == w.vector(c, role, text')[0] == ByteNumber(text');
      ByteNumberInjective(text, text');
    }
  }

  /** A text as one number, each byte one digit to the base 257. */
  function ByteNumber(t: Text): nat {
    if t == [] then 0 else 257 * ByteNumber(t[1..]) + t[0] as nat + 1
  }

  lemma {:induction false} ByteNumberInjective(t: Text, u: Text)
    requires ByteNumber(t) == ByteNumber(u)
    ensures t == u
  {
    if t != [] && u != [] {
      assert t[0] as nat < 257 && u[0] as nat < 257;
      ByteNumberInjective(t[1..], u[1..]);
      assert t == [t[0]] + t[1..] && u == [u[0]] + u[1..];
    }
  }
}
