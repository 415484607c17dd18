/** Reading the ledger's files back: with the bytes that handles append, the
    lines of each file are the printed values, in order, and parse to them. */
module LedgerFile {
  import opened Prelude
  import opened CallLedger
  import opened LedgerInvariant
  import opened LedgerTheorems
  import opened JsonText
  import opened JsonRoundTrip

  /** What a call appended: a value through a handle of some session. */
  ghost predicate Appended(line: Line, value: Json) {
    WellFormed(value) && line.bytes == Print(Stamped(value, line.scope)) + ['\n']
  }

  /** Each accepted line of the run is a value's. */
  ghost predicate AllAppended(r: Run) {
    forall line | line in AcceptedLines(r) :: exists value :: Appended(line, value)
  }

  lemma {:induction false} BytesAreJoined(lines: seq<Line>)
    ensures BytesOf(lines) == Joined(ByteLines(lines))
  {
    if lines != [] {
      var init, last := lines[..|lines| - 1], lines[|lines| - 1];
      BytesAreJoined(init);
      JoinedAppend(ByteLines(init), last.bytes);
      assert ByteLines(lines) == ByteLines(init) + [last.bytes];
    }
  }

  function ByteLines(lines: seq<Line>): (r: seq<Text>)
    ensures |r| == |lines|
  {
    seq(|lines|, i requires 0 <= i < |lines| => lines[i].bytes)
  }

  lemma {:induction false} JoinedAppend(lines: seq<Text>, last: Text)
    ensures Joined(lines + [last]) == Joined(lines) + last
  {
    if lines == [] {
      assert [] + [last] == [last];
    } else {
      assert (lines + [last])[1..] == lines[1..] + [last];
      JoinedAppend(lines[1..], last);
    }
  }

  lemma {:induction false} InFlatten(pieces: seq<seq<Line>>, i: nat, line: Line)
    requires i < |pieces| && line in pieces[i]
    ensures line in Flatten(pieces)
  {
    if i < |pieces| - 1 {
      InFlatten(pieces[..|pieces| - 1], i, line);
    }
  }

  lemma LandedWasAccepted(r: Run, line: Line)
    requires Inv(r) && line in Landed(r)
    ensures line in AcceptedLines(r)
  {
    hide Inv, Landed, AcceptedLines;
    var slots := LandedSlots(r);
    var i :| 0 <= i < |Landed(r)| && Landed(r)[i] == line;
  }

  lemma LineReadsBack(line: Line, value: Json)
    requires Appended(line, value)
    ensures Framed(line.bytes)
    ensures Parse(line.bytes[..|line.bytes| - 1]) == Some(Stamped(value, line.scope))
  {
    hide Framed, Stamped, Print, Parse;
    AppendedLineFramed(value, line.scope);
    StampedWellFormed(value, line.scope);
    PrintedValueParses(Stamped(value, line.scope));
    assert line.bytes[..|line.bytes| - 1] == Print(Stamped(value, line.scope));
  }

  /** The j-th line of a text reads back as the value of the j-th append. */
  ghost predicate ReadsBack(lines: seq<Line>, j: nat, text: Text) {
    j < |lines| && j < |SplitLines(text)|
    && exists value ::
         Appended(lines[j], value) && Parse(SplitLines(text)[j]) == Some(Stamped(value, lines[j].scope))
  }

  lemma LinesReadBack(lines: seq<Line>)
    requires forall line | line in lines :: exists value :: Appended(line, value)
    ensures |SplitLines(BytesOf(lines))| == |lines|
    ensures forall j: nat | j < |lines| :: ReadsBack(lines, j, BytesOf(lines))
  {
    hide Joined, SplitLines, BytesOf, Framed, Print, Stamped, WellFormed, Parse, Appended;
    forall j | 0 <= j < |lines| ensures Framed(ByteLines(lines)[j]) {
      assert lines[j] in lines;
      var value :| Appended(lines[j], value);
      LineReadsBack(lines[j], value);
    }
    BytesAreJoined(lines);
    SplitRecoversLines(ByteLines(lines));
    forall j: nat | j < |lines| ensures ReadsBack(lines, j, BytesOf(lines)) {
      assert lines[j] in lines;
      var value :| Appended(lines[j], value);
      LineReadsBack(lines[j], value);
      var text := SplitLines(BytesOf(lines))[j];
      assert text + ['\n'] == ByteLines(lines)[j];
      assert text == (text + ['\n'])[..|text|];
    }
  }

  /** Each file the path has named, split at its newlines, is the values of its
      appends in order. */
  lemma FileReadsBack(r: Run, i: nat)
    requires Inv(r) && AllAppended(r) && i < |r.s.disk|
    ensures i < |r.h.pieces| && |SplitLines(r.s.disk[i])| == |r.h.pieces[i]|
    ensures forall j: nat | j < |r.h.pieces[i]| :: ReadsBack(r.h.pieces[i], j, r.s.disk[i])
  {
    FilesAreAFifoLog(r);
    hide Inv, Landed, AcceptedLines, ReadsBack, Appended, SplitLines, BytesOf, Flatten;
    var lines := r.h.pieces[i];
    forall line | line in lines ensures exists value :: Appended(line, value) {
      InFlatten(r.h.pieces, i, line);
      LandedWasAccepted(r, line);
    }
    LinesReadBack(lines);
  }
}
