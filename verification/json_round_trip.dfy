/** Reading back what was printed, the session splice, and line framing. */
module JsonRoundTrip {
  import opened Prelude
  import opened JsonText

  // ---------------------------------------------------------------------
  // Parse after Print
  // ---------------------------------------------------------------------

  /** What may follow a value without being read as part of it. */
  predicate Delimited(rest: Text) {
    rest != [] ==> !IsNumberChar(rest[0])
  }

  lemma EscapedByteParses(c: Byte, u: Text, tail: Text, after: Text)
    requires ParseString(u) == Some((tail, after))
    ensures ParseString(EscapeByte(c) + u) == Some(([c] + tail, after))
  {
    var t, e := EscapeByte(c) + u, EscapeByte(c);
    if |e| == 1 {
      assert t[1..] == u;
    } else if |e| == 2 {
      assert t[1..][1..] == u && t[1] == e[1];
      assert SimpleEscape(t[1]) == [c];
    } else {
      assert t[1..][5..] == u;
      assert t[1] == 'u';
      ControlByteHex(c, t[1..][1..]);
    }
  }

  lemma ControlByteHex(c: Byte, t: Text)
    requires |t| >= 4 && |EscapeByte(c)| == 6 && t[..4] == EscapeByte(c)[2..]
    ensures Hex4(t) == Some(c as int) && Utf8(c as int) == [c]
  {
    var e := EscapeByte(c);
    assert t[0] == e[2] && t[1] == e[3] && t[2] == e[4] && t[3] == e[5];
  }

  lemma StringEnds(rest: Text)
    ensures ParseString([] + ['"'] + rest) == Some(([], rest))
  {
    var t := [] + ['"'] + rest;
    assert t[0] == '"' && t[1..] == rest;
  }

  lemma EscapeStep(s: Text, rest: Text)
    requires s != []
    ensures Escape(s) + ['"'] + rest == EscapeByte(s[0]) + (Escape(s[1..]) + ['"'] + rest)
    ensures [s[0]] + s[1..] == s
  {
    hide EscapeByte;
    assert Escape(s) == EscapeByte(s[0]) + Escape(s[1..]);
  }

  lemma {:induction false} StringRoundTrip(s: Text, rest: Text)
    ensures ParseString(Escape(s) + ['"'] + rest) == Some((s, rest))
  {
    if s == [] {
      StringEnds(rest);
    } else {
      StringRoundTrip(s[1..], rest);
      EscapeStep(s, rest);
      hide Escape, EscapeByte, ParseString;
      EscapedByteParses(s[0], Escape(s[1..]) + ['"'] + rest, s[1..], rest);
    }
  }

  lemma {:induction false} NumberRoundTrip(token: Text, rest: Text)
    requires forall i | 0 <= i < |token| :: IsNumberChar(token[i])
    requires Delimited(rest)
    ensures NumberLength(token + rest) == |token|
  {
    if token == [] {
      assert token + rest == rest;
    } else {
      assert (token + rest)[1..] == token[1..] + rest;
      NumberRoundTrip(token[1..], rest);
    }
  }

  /** No printed value starts with a space, a bracket that closes, or nothing. */
  lemma PrintStarts(v: Json)
    requires WellFormed(v)
    ensures Print(v) != [] && !IsSpace(Print(v)[0]) && Print(v)[0] != ']' && Print(v)[0] != '}'
  {
    if v.Number? { assert IsNumberChar(v.token[0]); }
  }

  lemma NumberParses(token: Text, rest: Text)
    requires IsNumber(token) && Delimited(rest)
    ensures ParseValue(token + rest) == Some((Number(token), rest))
  {
    var t := token + rest;
    NumberRoundTrip(token, rest);
    assert IsNumberChar(token[0]);
    assert t[0] == token[0];
    assert t[..|token|] == token && t[|token|..] == rest;
    assert SkipSpace(t) == t;
  }

  // One level of the parser at a time.

  lemma QuoteStarts(s: Text, rest: Text)
    ensures var t := Quote(s) + rest;
            t != [] && t[0] == '"' && t[1..] == Escape(s) + ['"'] + rest && SkipSpace(t) == t
  {
    hide Escape;
  }

  lemma QuotedValue(t: Text)
    requires t != [] && t[0] == '"' && SkipSpace(t) == t
    ensures ParseValue(t) ==
            match ParseString(t[1..]) case None => None case Some((s, rest)) => Some((String(s), rest))
  {
    hide ParseString, SkipSpace;
  }

  lemma StringStep(s: Text, rest: Text)
    ensures ParseValue(Quote(s) + rest) == Some((String(s), rest))
  {
    hide Quote, ParseValue, ParseString, Escape, SkipSpace;
    QuoteStarts(s, rest);
    QuotedValue(Quote(s) + rest);
    StringRoundTrip(s, rest);
  }

  lemma ArrayStep(inside: Text, items: seq<Json>, rest: Text)
    requires inside != [] && inside[0] != ']' && !IsSpace(inside[0])
    requires ParseItems(inside) == Some((items, rest))
    ensures ParseValue(['['] + inside) == Some((Array(items), rest))
  {
    hide ParseMembers, ParseItems, ParseString, IsNumber;
    var t := ['['] + inside;
    assert t[1..] == inside && SkipSpace(t) == t && SkipSpace(inside) == inside;
  }

  lemma ObjectStep(inside: Text, members: seq<Member>, rest: Text)
    requires inside != [] && inside[0] == '"'
    requires ParseMembers(inside) == Some((members, rest))
    ensures ParseValue(['{'] + inside) == Some((Object(members), rest))
  {
    hide ParseMembers, ParseItems, ParseString, IsNumber;
    var t := ['{'] + inside;
    assert t[1..] == inside && SkipSpace(t) == t && SkipSpace(inside) == inside;
  }

  lemma EmptyStep(rest: Text)
    ensures ParseValue(['[', ']'] + rest) == Some((Array([]), rest))
    ensures ParseValue(['{', '}'] + rest) == Some((Object([]), rest))
  {
    var a, o := ['[', ']'] + rest, ['{', '}'] + rest;
    assert a[1..][1..] == rest && o[1..][1..] == rest;
    assert SkipSpace(a) == a && SkipSpace(o) == o;
    assert SkipSpace(a[1..]) == a[1..] && SkipSpace(o[1..]) == o[1..];
  }

  lemma LastItemStep(t: Text, v: Json, rest: Text)
    requires ParseValue(t) == Some((v, [']'] + rest))
    ensures ParseItems(t) == Some(([v], rest))
  {
    hide ParseValue, Quote, ParseString;
    assert SkipSpace([']'] + rest) == [']'] + rest;
    assert ([']'] + rest)[1..] == rest;
  }

  lemma NextItemStep(t: Text, v: Json, u: Text, items: seq<Json>, rest: Text)
    requires ParseValue(t) == Some((v, [','] + u)) && ParseItems(u) == Some((items, rest))
    ensures ParseItems(t) == Some(([v] + items, rest))
  {
    hide ParseValue, Quote, ParseString;
    assert SkipSpace([','] + u) == [','] + u;
    assert ([','] + u)[1..] == u;
  }

  lemma LastMemberStep(key: Text, t: Text, v: Json, rest: Text)
    requires ParseValue(t) == Some((v, ['}'] + rest))
    ensures ParseMembers(Quote(key) + ([':'] + t)) == Some(([Member(key, v)], rest))
  {
    hide ParseValue, Quote, ParseString;
    var afterKey := [':'] + t;
    KeyStep(key, afterKey);
    assert SkipSpace(afterKey) == afterKey && afterKey[1..] == t;
    assert SkipSpace(['}'] + rest) == ['}'] + rest;
    assert (['}'] + rest)[1..] == rest;
  }

  lemma NextMemberStep(key: Text, t: Text, v: Json, u: Text, members: seq<Member>, rest: Text)
    requires ParseValue(t) == Some((v, [','] + u)) && ParseMembers(u) == Some((members, rest))
    ensures ParseMembers(Quote(key) + ([':'] + t)) == Some(([Member(key, v)] + members, rest))
  {
    hide ParseValue, Quote, ParseString;
    var afterKey := [':'] + t;
    KeyStep(key, afterKey);
    assert SkipSpace(afterKey) == afterKey && afterKey[1..] == t;
    assert SkipSpace([','] + u) == [','] + u;
    assert ([','] + u)[1..] == u;
  }

  lemma KeyStep(key: Text, afterKey: Text)
    ensures var t := Quote(key) + afterKey;
            t != [] && SkipSpace(t) == t && t[0] == '"' && ParseString(t[1..]) == Some((key, afterKey))
  {
    hide Quote, ParseString, Escape, SkipSpace;
    QuoteStarts(key, afterKey);
    StringRoundTrip(key, afterKey);
  }

  lemma {:induction false} ValueRoundTrip(v: Json, rest: Text)
    requires WellFormed(v) && Delimited(rest)
    ensures ParseValue(Print(v) + rest) == Some((v, rest))
    decreases v, 1
  {
    hide ParseValue, ParseItems, ParseMembers, PrintItems, PrintMembers, Quote, IsNumber;
    match v {
      case Null => LiteralStep(v, rest);
      case Bool(_) => LiteralStep(v, rest);
      case Number(token) => NumberParses(token, rest);
      case String(text) => StringStep(text, rest);
      case Array(items) =>
        if items == [] {
          EmptyStep(rest);
          PrintEmpty();
        } else {
          ItemsRoundTrip(items, rest);
          ItemsStart(items, [']'] + rest);
          ArrayStep(PrintItems(items) + ([']'] + rest), items, rest);
          Bracketed('[', PrintItems(items), ']', rest);
        }
      case Object(members) =>
        if members == [] {
          EmptyStep(rest);
          PrintEmpty();
        } else {
          MembersRoundTrip(members, rest);
          MembersStart(members, ['}'] + rest);
          ObjectStep(PrintMembers(members) + (['}'] + rest), members, rest);
          Bracketed('{', PrintMembers(members), '}', rest);
        }
    }
  }

  lemma PrintEmpty()
    ensures Print(Array([])) == ['[', ']'] && Print(Object([])) == ['{', '}']
  {}

  lemma Bracketed(open: Byte, t: Text, close: Byte, rest: Text)
    ensures [open] + t + [close] + rest == [open] + (t + ([close] + rest))
  {}

  lemma LiteralStep(v: Json, rest: Text)
    requires v.Null? || v.Bool?
    ensures ParseValue(Print(v) + rest) == Some((v, rest))
  {
    var p := Print(v);
    var t := p + rest;
    assert SkipSpace(t) == t && p <= t && t[|p|..] == rest;
    assert t[0] == p[0];
  }

  lemma ItemsStart(items: seq<Json>, end: Text)
    requires items != [] && WellFormed(items[0])
    ensures var t := PrintItems(items) + end;
            t != [] && t[0] != ']' && !IsSpace(t[0])
  {
    PrintStarts(items[0]);
    assert (PrintItems(items) + end)[0] == Print(items[0])[0];
  }

  lemma MembersStart(members: seq<Member>, end: Text)
    requires members != []
    ensures var t := PrintMembers(members) + end;
            t != [] && t[0] == '"'
  {}

  lemma {:induction false} ItemsRoundTrip(items: seq<Json>, rest: Text)
    requires items != [] && forall i | 0 <= i < |items| :: WellFormed(items[i])
    ensures ParseItems(PrintItems(items) + ([']'] + rest)) == Some((items, rest))
    decreases items, 0
  {
    hide ParseValue, ParseItems, ParseMembers, PrintItems, Print, Quote, IsNumber, WellFormed;
    var end := [']'] + rest;
    HeadAndTail(items);
    PrintFirstItem(items, end);
    if |items| == 1 {
      ValueRoundTrip(items[0], end);
      LastItemStep(Print(items[0]) + end, items[0], rest);
    } else {
      var more := PrintItems(items[1..]) + end;
      ItemsRoundTrip(items[1..], rest);
      ValueRoundTrip(items[0], [','] + more);
      NextItemStep(Print(items[0]) + ([','] + more), items[0], more, items[1..], rest);
    }
  }

  lemma {:induction false} PrintFirstItem(items: seq<Json>, end: Text)
    requires items != []
    ensures PrintItems(items) + end
         == Print(items[0]) + (if |items| == 1 then end else [','] + (PrintItems(items[1..]) + end))
  {
    PrintItemsStep(items);
    hide *;
    if |items| == 1 {
      RegroupLastItem(Print(items[0]), end);
    } else {
      RegroupItem(Print(items[0]), PrintItems(items[1..]), end);
    }
  }

  lemma HeadAndTail(items: seq<Json>)
    requires items != []
    ensures [items[0]] + items[1..] == items && (|items| == 1 ==> [items[0]] == items)
  {}

  lemma RegroupLastItem(first: Text, end: Text)
    ensures first + [] + end == first + end
  {}

  lemma {:induction false} PrintItemsStep(items: seq<Json>)
    requires items != []
    ensures PrintItems(items)
         == Print(items[0]) + (if |items| == 1 then [] else [','] + PrintItems(items[1..]))
  {}

  lemma RegroupItem(first: Text, more: Text, end: Text)
    ensures first + ([','] + more) + end == first + ([','] + (more + end))
  {}

  lemma {:induction false} PrintFirstMember(members: seq<Member>, end: Text)
    requires members != []
    ensures PrintMembers(members) + end
         == Quote(members[0].key)
            + ([':'] + (Print(members[0].value)
                        + (if |members| == 1 then end else [','] + (PrintMembers(members[1..]) + end))))
  {
    PrintMembersStep(members);
    hide *;
    var key, value := Quote(members[0].key), Print(members[0].value);
    if |members| == 1 {
      RegroupLast(key, value, end);
    } else {
      RegroupMember(key, value, PrintMembers(members[1..]), end);
    }
  }

  lemma {:induction false} PrintMembersStep(members: seq<Member>)
    requires members != []
    ensures PrintMembers(members)
         == Quote(members[0].key) + [':'] + Print(members[0].value)
            + (if |members| == 1 then [] else [','] + PrintMembers(members[1..]))
  {}

  lemma RegroupLast(key: Text, value: Text, end: Text)
    ensures key + [':'] + value + [] + end == key + ([':'] + (value + end))
  {}

  lemma RegroupMember(key: Text, value: Text, more: Text, end: Text)
    ensures key + [':'] + value + ([','] + more) + end == key + ([':'] + (value + ([','] + (more + end))))
  {}

  lemma {:induction false} MembersRoundTrip(members: seq<Member>, rest: Text)
    requires members != [] && forall i | 0 <= i < |members| :: WellFormed(members[i].value)
    ensures ParseMembers(PrintMembers(members) + (['}'] + rest)) == Some((members, rest))
    decreases members, 0
  {
    hide ParseValue, ParseMembers, PrintMembers, Print, Quote, IsNumber;
    var m, end := members[0], ['}'] + rest;
    PrintFirstMember(members, end);
    if |members| == 1 {
      ValueRoundTrip(m.value, end);
      LastMemberStep(m.key, Print(m.value) + end, m.value, rest);
      assert [m] == members;
    } else {
      var more := PrintMembers(members[1..]) + end;
      ValueRoundTrip(m.value, [','] + more);
      MembersRoundTrip(members[1..], rest);
      NextMemberStep(m.key, Print(m.value) + ([','] + more), m.value, more, members[1..], rest);
      assert [m] + members[1..] == members;
    }
  }

  /** Every value reads back as itself. */
  lemma PrintedValueParses(v: Json)
    requires WellFormed(v)
    ensures Parse(Print(v)) == Some(v)
  {
    ValueRoundTrip(v, []);
    assert Print(v) + [] == Print(v);
  }

  // ---------------------------------------------------------------------
  // The session stamp
  // ---------------------------------------------------------------------

  const SESSION_KEY: Text := "session"

  /** What a handle's line must say: its object plus the session, unless it
      names one itself. */
  function Stamped(line: Json, session: Option<Text>): Json {
    if session.Some? && line.Object? && !HasKey(line.members, SESSION_KEY)
    then Object(line.members + [Member(SESSION_KEY, String(session.value))])
    else line
  }

  lemma StampedWellFormed(line: Json, session: Option<Text>)
    requires WellFormed(line)
    ensures WellFormed(Stamped(line, session))
  {}

  lemma {:induction false} PrintOneMore(members: seq<Member>, m: Member)
    ensures PrintMembers(members + [m])
         == (if members == [] then [] else PrintMembers(members) + [','])
            + (Quote(m.key) + [':'] + Print(m.value))
  {
    hide Quote, Print;
    if members == [] {
      assert [] + [m] == [m];
    } else {
      assert (members + [m])[1..] == members[1..] + [m];
      PrintOneMore(members[1..], m);
    }
  }

  /** The bytes `append` hands over: the line's own serialization, opened at
      its closing brace for the session, and a newline. The splice writes the
      very bytes of the stamped object. */
  method LineBytes(line: Json, session: Option<Text>) returns (bytes: Text)
    ensures bytes == Print(Stamped(line, session)) + ['\n']
  {
    SpliceIsPrint(line, session);
    hide Print, Quote, Stamped;
    var stamp: Option<(Text, bool)> := None;
    if session.Some? && line.Object? && !HasKey(line.members, SESSION_KEY) {
      stamp := Some((session.value, line.members == []));
    }
    bytes := Print(line);
    if stamp.Some? && bytes != [] && bytes[|bytes| - 1] == '}' {
      bytes := bytes[..|bytes| - 1];
      if !stamp.value.1 {
        bytes := bytes + [','];
      }
      bytes := bytes + "\"session\":";
      bytes := bytes + Quote(stamp.value.0);
      bytes := bytes + ['}'];
    }
    bytes := bytes + ['\n'];
  }

  function Spliced(members: seq<Member>, session: Text): Text {
    var p := Print(Object(members));
    p[..|p| - 1] + (if members == [] then [] else [',']) + "\"session\":" + Quote(session) + ['}']
  }

  lemma SpliceIsPrint(line: Json, session: Option<Text>)
    ensures Print(Stamped(line, session))
         == if session.Some? && line.Object? && !HasKey(line.members, SESSION_KEY)
            then Spliced(line.members, session.value) else Print(line)
    ensures line.Object? ==> Print(line) != [] && Print(line)[|Print(line)| - 1] == '}'
  {
    if session.Some? && line.Object? { SpliceIsStamp(line.members, session.value); }
  }

  /** Opening an object's bytes for one more member prints the object with it. */
  lemma SpliceIsStamp(members: seq<Member>, session: Text)
    ensures Spliced(members, session) == Print(Object(members + [Member(SESSION_KEY, String(session))]))
  {
    hide PrintMembers, Quote;
    var p, m := Print(Object(members)), Member(SESSION_KEY, String(session));
    assert p[..|p| - 1] == ['{'] + PrintMembers(members);
    PrintOneMore(members, m);
    SessionKeyPrints();
    var head: Text := if members == [] then [] else PrintMembers(members) + [','];
    assert PrintMembers(members + [m]) == head + (Quote(SESSION_KEY) + [':'] + Quote(session));
    if members == [] { PrintNoMembers(); }
  }

  lemma PrintNoMembers()
    ensures PrintMembers([]) == []
  {}

  lemma SessionKeyPrints()
    ensures Quote(SESSION_KEY) + [':'] == "\"session\":"
  {
    var key: Text := "session";
    PlainEscape(key);
    assert SESSION_KEY == key;
  }

  lemma {:induction false} PlainEscape(t: Text)
    requires forall i | 0 <= i < |t| :: EscapeByte(t[i]) == [t[i]]
    ensures Escape(t) == t
  {
    if t != [] { PlainEscape(t[1..]); }
  }

  /** A reader of the spliced line gets the object with its members untouched
      and the session after them; any other line as it was. */
  lemma StampedLineParses(line: Json, session: Option<Text>)
    requires WellFormed(line)
    ensures Parse(Print(Stamped(line, session)) + ['\n']) == Some(Stamped(line, session))
    ensures Stamped(line, session)
         == if session.Some? && line.Object? && !HasKey(line.members, "session")
            then Object(line.members + [Member("session", String(session.value))]) else line
  {
    StampedWellFormed(line, session);
    ValueRoundTrip(Stamped(line, session), ['\n']);
  }

  // ---------------------------------------------------------------------
  // Framing
  // ---------------------------------------------------------------------

  /** No byte of a printed value is a control byte, so none is a newline. */
  predicate Visible(t: Text) {
    forall i | 0 <= i < |t| :: t[i] as int >= 32
  }

  lemma VisibleConcat(a: Text, b: Text)
    requires Visible(a) && Visible(b)
    ensures Visible(a + b)
  {}

  lemma EscapeByteVisible(c: Byte)
    ensures Visible(EscapeByte(c))
  {}

  lemma {:induction false} EscapeVisible(t: Text)
    ensures Visible(Escape(t))
  {
    if t != [] {
      EscapeVisible(t[1..]);
      EscapeByteVisible(t[0]);
      hide Visible, EscapeByte;
      VisibleConcat(EscapeByte(t[0]), Escape(t[1..]));
    }
  }

  lemma BracketsVisible(open: Byte, t: Text, close: Byte)
    requires Visible(t) && open as int >= 32 && close as int >= 32
    ensures Visible([open] + t + [close])
  {}

  lemma NumberVisible(token: Text)
    requires IsNumber(token)
    ensures Visible(token)
  {}

  lemma LiteralVisible(v: Json)
    requires v.Null? || v.Bool?
    ensures Visible(Print(v))
  {}

  lemma {:induction false} PrintVisible(v: Json)
    requires WellFormed(v)
    ensures Visible(Print(v))
    decreases v, 1
  {
    hide Visible, IsNumber, Escape, PrintItems, PrintMembers;
    match v {
      case Number(token) => NumberVisible(token);
      case String(text) =>
        EscapeVisible(text);
        BracketsVisible('"', Escape(text), '"');
      case Array(items) =>
        ItemsVisible(items);
        BracketsVisible('[', PrintItems(items), ']');
      case Object(members) =>
        MembersVisible(members);
        BracketsVisible('{', PrintMembers(members), '}');
      case _ => LiteralVisible(v);
    }
  }

  lemma {:induction false} ItemsVisible(items: seq<Json>)
    requires forall i | 0 <= i < |items| :: WellFormed(items[i])
    ensures Visible(PrintItems(items))
    decreases items, 0
  {
    if items == [] {
      PrintNone();
    } else {
      PrintItemsStep(items);
      CommaVisible();
      hide Visible, Print, PrintItems, WellFormed;
      PrintVisible(items[0]);
      ItemsVisible(items[1..]);
      VisibleConcat([','], PrintItems(items[1..]));
      VisibleConcat(Print(items[0]), if |items| == 1 then [] else [','] + PrintItems(items[1..]));
    }
  }

  lemma PrintNone()
    ensures PrintItems([]) == [] && PrintMembers([]) == [] && Visible([])
  {}

  lemma CommaVisible()
    ensures Visible([',']) && Visible([':']) && Visible([])
  {}

  lemma {:induction false} MembersVisible(members: seq<Member>)
    requires forall i | 0 <= i < |members| :: WellFormed(members[i].value)
    ensures Visible(PrintMembers(members))
    decreases members, 0
  {
    if members == [] {
      PrintNone();
    } else {
      PrintMembersStep(members);
      CommaVisible();
      QuoteVisible(members[0].key);
      hide Visible, Print, PrintMembers, WellFormed, Quote;
      var key, value := Quote(members[0].key), Print(members[0].value);
      PrintVisible(members[0].value);
      MembersVisible(members[1..]);
      VisibleConcat(key, [':']);
      VisibleConcat(key + [':'], value);
      VisibleConcat([','], PrintMembers(members[1..]));
      VisibleConcat(key + [':'] + value, if |members| == 1 then [] else [','] + PrintMembers(members[1..]));
    }
  }

  lemma QuoteVisible(t: Text)
    ensures Visible(Quote(t))
  {
    EscapeVisible(t);
    BracketsVisible('"', Escape(t), '"');
  }

  /** A line as appended: its only newline is its last byte. */
  predicate Framed(bytes: Text) {
    bytes != [] && bytes[|bytes| - 1] == '\n' && forall i | 0 <= i < |bytes| - 1 :: bytes[i] != '\n'
  }

  lemma AppendedLineFramed(line: Json, session: Option<Text>)
    requires WellFormed(line)
    ensures Framed(Print(Stamped(line, session)) + ['\n'])
  {
    StampedWellFormed(line, session);
    PrintVisible(Stamped(line, session));
  }

  function NewlineAt(t: Text): (n: nat)
    ensures n <= |t|
    ensures n < |t| ==> t[n] == '\n'
    ensures forall i | 0 <= i < n :: t[i] != '\n'
  {
    if t == [] || t[0] == '\n' then 0 else 1 + NewlineAt(t[1..])
  }

  /** The lines of a text without their newlines, as a reader of the file
      splits them: a text after the last newline is a line of its own. */
  function SplitLines(t: Text): seq<Text> {
    if t == [] then []
    else
      var n := NewlineAt(t);
      if n == |t| then [t] else [t[..n]] + SplitLines(t[n + 1..])
  }

  /** Splitting the concatenation of framed lines recovers each of them. */
  lemma {:induction false} SplitRecoversLines(lines: seq<Text>)
    requires forall i | 0 <= i < |lines| :: Framed(lines[i])
    ensures |SplitLines(Joined(lines))| == |lines|
    ensures forall i | 0 <= i < |lines| :: SplitLines(Joined(lines))[i] + ['\n'] == lines[i]
  {
    if lines != [] {
      var first := lines[0];
      SplitRecoversLines(lines[1..]);
      FramedEnds(first);
      SplitFirst(first, Joined(lines[1..]));
      hide SplitLines, Framed;
      var rest := SplitLines(Joined(lines[1..]));
      assert SplitLines(Joined(lines)) == [first[..|first| - 1]] + rest;
      forall i | 0 <= i < |lines| ensures SplitLines(Joined(lines))[i] + ['\n'] == lines[i] {
        if i > 0 { assert rest[i - 1] + ['\n'] == lines[1..][i - 1]; }
      }
    }
  }

  lemma FramedEnds(line: Text)
    requires Framed(line)
    ensures line != [] && line[..|line| - 1] + ['\n'] == line
  {}

  lemma SplitFirst(first: Text, rest: Text)
    requires Framed(first)
    ensures SplitLines(first + rest) == [first[..|first| - 1]] + SplitLines(rest)
  {
    var t, n := first + rest, |first| - 1;
    assert forall i | 0 <= i <= n :: t[i] == first[i];
    assert NewlineAt(t) == n;
    assert t[n + 1..] == rest;
    assert t[..n] == first[..n];
  }

  function Joined(lines: seq<Text>): Text {
    if lines == [] then [] else lines[0] + Joined(lines[1..])
  }
}
