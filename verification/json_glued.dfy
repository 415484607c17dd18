/** Lines run together are no JSON: when a write was cut short and the next one
    went behind it, a reader takes neither for an entry. */
module JsonGlued {
  import opened Prelude
  import opened JsonText
  import opened JsonRoundTrip
  import opened JsonTorn

  // ---------------------------------------------------------------------
  // A text that stops the parser
  // ---------------------------------------------------------------------

  /** No comma, colon, bracket or space comes next. */
  predicate Stuck(rest: Text) {
    rest == [] || rest[0] == '{' || rest[0] == 'k'
  }

  predicate Stops<T(==)>(parsed: Option<(T, Text)>) {
    parsed.Some? ==> Stuck(parsed.value.1)
  }

  /** What an object that is put behind a cut looks like to the parser, be it in
      a string, before a value or behind one. */
  predicate Break(x: Text) {
    x != [] && x[0] == '{' && Stops(ParseString(x)) && Stops(ParseValue(x))
  }

  /** The first n bytes of a text, and then another text. */
  function Cut(a: Text, n: nat, x: Text): Text
    requires n <= |a|
  {
    a[..n] + x
  }

  lemma CutLeft(a: Text, b: Text, n: nat, x: Text)
    requires n <= |a|
    ensures Cut(a + b, n, x) == Cut(a, n, x)
  {
    assert (a + b)[..n] == a[..n];
  }

  lemma CutRight(a: Text, b: Text, n: nat, x: Text)
    requires |a| <= n <= |a| + |b|
    ensures Cut(a + b, n, x) == a + Cut(b, n - |a|, x)
  {
    assert (a + b)[..n] == a + b[..n - |a|];
  }

  lemma StuckStays(rest: Text)
    requires Stuck(rest)
    ensures SkipSpace(rest) == rest
    ensures rest != [] ==> rest[0] != ',' && rest[0] != ':' && rest[0] != ']' && rest[0] != '}' && rest[0] != '"'
  {}

  // ---------------------------------------------------------------------
  // Cut strings
  // ---------------------------------------------------------------------

  lemma EscapedByteFails(c: Byte, u: Text)
    requires ParseString(u).None?
    ensures ParseString(EscapeByte(c) + u).None?
  {
    var t, e := EscapeByte(c) + u, EscapeByte(c);
    if |e| == 1 {
      assert t[1..] == u;
    } else if |e| == 2 {
      assert t[1..][1..] == u && t[1] == e[1];
      assert SimpleEscape(t[1]) == [c];
    } else {
      assert t[1..][5..] == u;
      assert t[1] == 'u';
      ControlByteHex(c, t[1..][1..]);
    }
  }

  lemma CutEscape(c: Byte, n: nat, x: Text)
    requires 0 < n < |EscapeByte(c)| && x != [] && x[0] == '{'
    ensures ParseString(Cut(EscapeByte(c), n, x)).None?
  {
    var t := Cut(EscapeByte(c), n, x);
    assert t[0] == '\\' && t[n] == '{';
    if n == 1 {
      assert t[1..] == x;
    } else {
      assert t[1] == 'u';
      assert |t| >= 6 ==> t[2..][n - 2] == '{';
      assert t[1..][1..] == t[2..];
      BraceIsNoHex(t[2..], n - 2);
    }
  }

  lemma BraceIsNoHex(t: Text, i: nat)
    requires i < |t| && i < 4 && t[i] == '{'
    ensures Hex4(t).None?
  {
    assert HexValue('{').None?;
  }

  lemma {:induction false} CutString(s: Text, n: nat, x: Text)
    requires Break(x) && n <= |Escape(s)|
    ensures Stops(ParseString(Cut(Escape(s), n, x)))
  {
    if n == 0 {
      assert Cut(Escape(s), 0, x) == x;
    } else {
      var e, more := EscapeByte(s[0]), Escape(s[1..]);
      assert Escape(s) == e + more;
      hide EscapeByte, Escape, ParseString, ParseValue, Cut;
      if n < |e| {
        CutLeft(e, more, n, x);
        CutEscape(s[0], n, x);
      } else {
        CutRight(e, more, n, x);
        CutString(s[1..], n - |e|, x);
        var u := Cut(more, n - |e|, x);
        if ParseString(u).None? {
          EscapedByteFails(s[0], u);
        } else {
          EscapedByteParses(s[0], u, ParseString(u).value.0, ParseString(u).value.1);
        }
      }
    }
  }

  // ---------------------------------------------------------------------
  // Cut values
  // ---------------------------------------------------------------------

  lemma ItemsStuck(t: Text)
    requires Stops(ParseValue(t))
    ensures ParseItems(t).None?
  {
    hide ParseValue;
    if ParseValue(t).Some? { StuckStays(ParseValue(t).value.1); }
  }

  lemma ItemsFail(t: Text, v: Json, u: Text)
    requires ParseValue(t) == Some((v, [','] + u)) && ParseItems(u).None?
    ensures ParseItems(t).None?
  {
    hide ParseValue;
    assert SkipSpace([','] + u) == [','] + u && ([','] + u)[1..] == u;
  }

  /** A key, a colon and a value that stops, or that more members follow. */
  lemma MembersFail(key: Text, w: Text)
    requires Stops(ParseValue(w)) || exists v, u :: ParseValue(w) == Some((v, [','] + u)) && ParseMembers(u).None?
    ensures ParseMembers(Quote(key) + ([':'] + w)).None?
  {
    hide ParseValue, Quote, ParseString;
    var afterKey := [':'] + w;
    KeyStep(key, afterKey);
    assert SkipSpace(afterKey) == afterKey && afterKey[1..] == w;
    if Stops(ParseValue(w)) {
      if ParseValue(w).Some? { StuckStays(ParseValue(w).value.1); }
    } else {
      var v, u :| ParseValue(w) == Some((v, [','] + u)) && ParseMembers(u).None?;
      assert SkipSpace([','] + u) == [','] + u && ([','] + u)[1..] == u;
    }
  }

  lemma KeyStuck(t: Text)
    requires t != [] && t[0] == '"' && Stops(ParseString(t[1..]))
    ensures ParseMembers(t).None?
  {
    hide ParseString, ParseValue;
    assert SkipSpace(t) == t;
    if ParseString(t[1..]).Some? { StuckStays(ParseString(t[1..]).value.1); }
  }

  lemma NoMembers(x: Text)
    requires x != [] && x[0] == '{'
    ensures ParseMembers(x).None?
  {
    assert SkipSpace(x) == x;
  }

  lemma BracketFails(open: Byte, inside: Text)
    requires open == '[' || open == '{'
    requires inside != [] && !IsSpace(inside[0]) && inside[0] != ']' && inside[0] != '}'
    requires if open == '[' then ParseItems(inside).None? else ParseMembers(inside).None?
    ensures ParseValue([open] + inside).None?
  {
    hide ParseMembers, ParseItems, ParseString, IsNumber;
    var t := [open] + inside;
    assert t[1..] == inside && SkipSpace(t) == t && SkipSpace(inside) == inside;
  }

  /** A string, cut behind its opening quote. */
  lemma CutQuote(s: Text, n: nat, x: Text)
    requires Break(x) && 0 < n < |Quote(s)|
    ensures var t := Cut(Quote(s), n, x);
      t != [] && t[0] == '"' && Stops(ParseString(t[1..]))
  {
    hide ParseString, ParseValue, Escape;
    CutString(s, n - 1, x);
    var t := Cut(Quote(s), n, x);
    assert Quote(s) == ['"'] + (Escape(s) + ['"']);
    CutRight(['"'], Escape(s) + ['"'], n, x);
    CutLeft(Escape(s), ['"'], n - 1, x);
    assert t[1..] == Cut(Escape(s), n - 1, x);
  }

  lemma CutScalar(v: Json, n: nat, x: Text)
    requires WellFormed(v) && Break(x) && n <= |Print(v)| && !v.Array? && !v.Object?
    ensures Stops(ParseValue(Cut(Print(v), n, x)))
  {
    var t := Cut(Print(v), n, x);
    if n == 0 {
      assert t == x;
    } else if n == |Print(v)| {
      assert t == Print(v) + x;
      ValueRoundTrip(v, x);
    } else {
      assert t[0] == Print(v)[0] && t[n] == '{';
      match v {
        case String(s) =>
          CutQuote(s, n, x);
          StringStuck(t);
        case Number(token) =>
          CutNumber(token, n, x);
        case _ =>
          CutLiteral(v, n, x);
      }
    }
  }

  lemma StringStuck(t: Text)
    requires t != [] && t[0] == '"' && Stops(ParseString(t[1..]))
    ensures Stops(ParseValue(t))
  {
    hide ParseString;
    assert SkipSpace(t) == t;
  }

  lemma CutNumber(token: Text, n: nat, x: Text)
    requires 0 < n <= |token| && (forall i | 0 <= i < |token| :: IsNumberChar(token[i]))
    requires x != [] && x[0] == '{'
    ensures Stops(ParseValue(Cut(token, n, x)))
  {
    hide IsNumber;
    var t := Cut(token, n, x);
    NumberRoundTrip(token[..n], x);
    assert t[n..] == x && t[0] == token[0];
    assert SkipSpace(t) == t;
  }

  lemma CutLiteral(v: Json, n: nat, x: Text)
    requires (v.Null? || v.Bool?) && 0 < n < |Print(v)| && x != [] && x[0] == '{'
    ensures ParseValue(Cut(Print(v), n, x)).None?
  {
    var t := Cut(Print(v), n, x);
    assert t[0] == Print(v)[0] && t[n] == '{';
    assert SkipSpace(t) == t;
    assert NumberLength(t) == 0;
  }

  /** A value that is cut and runs into the text: nothing that could end or
      continue it comes next, and a list or an object is not even begun. */
  lemma {:induction false} CutValue(v: Json, n: nat, x: Text)
    requires WellFormed(v) && Break(x) && n <= |Print(v)|
    ensures Stops(ParseValue(Cut(Print(v), n, x)))
    ensures (v.Array? || v.Object?) && 0 < n < |Print(v)| ==> ParseValue(Cut(Print(v), n, x)).None?
    decreases v, 1
  {
    hide ParseValue, ParseItems, ParseMembers, ParseString, PrintItems, PrintMembers, IsNumber, Cut;
    if !v.Array? && !v.Object? {
      CutScalar(v, n, x);
    } else if n == 0 || n == |Print(v)| {
      CutEnds(v, n, x);
    } else if v.Array? {
      var inside := PrintItems(v.items);
      CutBracket('[', inside, ']', n, x);
      if v.items == [] {
        CutNothing(x);
      } else {
        CutItems(v.items, n - 1, x);
        CutItemsStart(v.items, n - 1, x);
      }
      BracketFails('[', Cut(inside, n - 1, x));
    } else {
      var inside := PrintMembers(v.members);
      CutBracket('{', inside, '}', n, x);
      if v.members == [] {
        CutNothing(x);
      } else {
        CutMembers(v.members, n - 1, x);
        CutMembersStart(v.members, n - 1, x);
      }
      BracketFails('{', Cut(inside, n - 1, x));
    }
  }

  lemma CutEnds(v: Json, n: nat, x: Text)
    requires WellFormed(v) && Break(x) && (n == 0 || n == |Print(v)|)
    ensures Stops(ParseValue(Cut(Print(v), n, x)))
  {
    hide ParseValue, Print;
    if n == 0 {
      assert Cut(Print(v), 0, x) == x;
    } else {
      assert Print(v)[..n] == Print(v);
      ValueRoundTrip(v, x);
    }
  }

  lemma CutBracket(open: Byte, inside: Text, close: Byte, n: nat, x: Text)
    requires 0 < n <= |inside| + 1
    ensures Cut([open] + inside + [close], n, x) == [open] + Cut(inside, n - 1, x)
  {
    assert ([open] + inside + [close])[..n] == [open] + inside[..n - 1];
  }

  lemma CutNothing(x: Text)
    requires Break(x)
    ensures PrintItems([]) == [] && PrintMembers([]) == []
    ensures Cut([], 0, x) == x && x[0] == '{' && ParseItems(x).None? && ParseMembers(x).None?
  {
    ItemsStuck(x);
    NoMembers(x);
  }

  lemma CutItemsStart(items: seq<Json>, n: nat, x: Text)
    requires items != [] && WellFormed(items[0]) && n <= |PrintItems(items)| && x != [] && x[0] == '{'
    ensures var t := Cut(PrintItems(items), n, x);
      t != [] && !IsSpace(t[0]) && t[0] != ']' && t[0] != '}'
  {
    PrintStarts(items[0]);
    assert PrintItems(items)[0] == Print(items[0])[0];
    assert Cut(PrintItems(items), n, x)[0] == if n == 0 then x[0] else PrintItems(items)[0];
  }

  lemma CutMembersStart(members: seq<Member>, n: nat, x: Text)
    requires members != [] && n <= |PrintMembers(members)| && x != [] && x[0] == '{'
    ensures var t := Cut(PrintMembers(members), n, x);
      t != [] && !IsSpace(t[0]) && t[0] != ']' && t[0] != '}'
  {
    assert PrintMembers(members)[0] == '"';
    assert Cut(PrintMembers(members), n, x)[0] == if n == 0 then x[0] else '"';
  }

  lemma {:induction false} CutItems(items: seq<Json>, n: nat, x: Text)
    requires items != [] && (forall i | 0 <= i < |items| :: WellFormed(items[i]))
    requires Break(x) && n <= |PrintItems(items)|
    ensures ParseItems(Cut(PrintItems(items), n, x)).None?
    decreases items, 0
  {
    PrintItemsStep(items);
    hide ParseValue, ParseItems, PrintItems, Print, Cut, ParseString;
    var p := Print(items[0]);
    if n <= |p| {
      CutValue(items[0], n, x);
      CutLeft(p, if |items| == 1 then [] else [','] + PrintItems(items[1..]), n, x);
      ItemsStuck(Cut(p, n, x));
    } else {
      var more := PrintItems(items[1..]);
      CutRight(p, [','] + more, n, x);
      CutRight([','], more, n - |p|, x);
      var u := Cut(more, n - |p| - 1, x);
      CutItems(items[1..], n - |p| - 1, x);
      ValueRoundTrip(items[0], [','] + u);
      ItemsFail(p + ([','] + u), items[0], u);
    }
  }

  lemma {:induction false} CutMembers(members: seq<Member>, n: nat, x: Text)
    requires members != [] && (forall i | 0 <= i < |members| :: WellFormed(members[i].value))
    requires Break(x) && n <= |PrintMembers(members)|
    ensures ParseMembers(Cut(PrintMembers(members), n, x)).None?
    decreases members, 1
  {
    PrintMembersSplit(members);
    var q, p := Quote(members[0].key), Print(members[0].value);
    var tail := if |members| == 1 then [] else [','] + PrintMembers(members[1..]);
    if n == 0 {
      assert Cut(PrintMembers(members), 0, x) == x;
      NoMembers(x);
    } else {
      hide ParseValue, ParseMembers, PrintMembers, Print, Cut, Quote, ParseString;
      if n < |q| {
        CutLeft(q, [':'] + (p + tail), n, x);
        CutQuote(members[0].key, n, x);
        KeyStuck(Cut(q, n, x));
      } else {
        CutRight(q, [':'] + (p + tail), n, x);
        CutBehindKey(members, n - |q|, x);
      }
    }
  }

  lemma {:induction false} PrintMembersSplit(members: seq<Member>)
    requires members != []
    ensures PrintMembers(members)
         == Quote(members[0].key)
            + ([':'] + (Print(members[0].value)
                        + (if |members| == 1 then [] else [','] + PrintMembers(members[1..]))))
  {
    var tail := if |members| == 1 then [] else [','] + PrintMembers(members[1..]);
    PrintMembersStep(members);
    hide *;
    RegroupParts(Quote(members[0].key), Print(members[0].value), tail);
  }

  lemma RegroupParts(key: Text, value: Text, tail: Text)
    ensures key + [':'] + value + tail == key + ([':'] + (value + tail))
  {}

  /** The cut lies behind the first key: at the colon, in the value or behind it. */
  lemma {:induction false} CutBehindKey(members: seq<Member>, n: nat, x: Text)
    requires members != [] && (forall i | 0 <= i < |members| :: WellFormed(members[i].value)) && Break(x)
    requires var tail := if |members| == 1 then [] else [','] + PrintMembers(members[1..]);
      n <= 1 + |Print(members[0].value)| + |tail|
    ensures var tail := if |members| == 1 then [] else [','] + PrintMembers(members[1..]);
      ParseMembers(Quote(members[0].key) + Cut([':'] + (Print(members[0].value) + tail), n, x)).None?
    decreases members, 0
  {
    hide ParseValue, ParseMembers, PrintMembers, Print, Cut, Quote, ParseString;
    var key, p := members[0].key, Print(members[0].value);
    var tail := if |members| == 1 then [] else [','] + PrintMembers(members[1..]);
    if n == 0 {
      CutLeft([], [':'] + (p + tail), 0, x);
      NoColon(key, p + tail, x);
    } else {
      CutRight([':'], p + tail, n, x);
      var k := n - 1;
      if k <= |p| {
        CutLeft(p, tail, k, x);
        CutValue(members[0].value, k, x);
        MembersFail(key, Cut(p, k, x));
      } else {
        var more := PrintMembers(members[1..]);
        CutRight(p, [','] + more, k, x);
        CutRight([','], more, k - |p|, x);
        var u := Cut(more, k - |p| - 1, x);
        CutMembers(members[1..], k - |p| - 1, x);
        ValueRoundTrip(members[0].value, [','] + u);
        MembersFail(key, p + ([','] + u));
      }
    }
  }

  lemma NoColon(key: Text, more: Text, x: Text)
    requires x != [] && x[0] == '{'
    ensures ParseMembers(Quote(key) + Cut([':'] + more, 0, x)).None?
  {
    hide Quote, ParseString, ParseValue;
    assert Cut([':'] + more, 0, x) == x;
    KeyStep(key, x);
    assert SkipSpace(x) == x;
  }

  // ---------------------------------------------------------------------
  // Pieces of objects, one behind the other
  // ---------------------------------------------------------------------

  /** What one write left of an object: its first n bytes, or all of them. */
  datatype Piece = Piece(v: Json, n: nat) {
    predicate Whole() {
      n == |Print(v)|
    }

    function Bytes(): Text
      requires n <= |Print(v)|
    {
      Print(v)[..n]
    }
  }

  /** A piece of an object whose first key begins with a `k`. */
  ghost predicate Proper(p: Piece) {
    && WellFormed(p.v) && p.v.Object? && 0 < p.n <= |Print(p.v)|
    && "{\"k" <= Print(p.v)
  }

  ghost predicate AllProper(ps: seq<Piece>) {
    forall p | p in ps :: Proper(p)
  }

  ghost function Glue(ps: seq<Piece>): Text
    requires AllProper(ps)
  {
    if ps == [] then [] else assert ps[0] in ps; ps[0].Bytes() + Glue(ps[1..])
  }

  lemma GlueStarts(ps: seq<Piece>)
    requires AllProper(ps)
    ensures Stuck(Glue(ps)) && (Glue(ps) == [] <==> ps == []) && (ps != [] ==> Glue(ps)[0] == '{')
  {
    if ps != [] {
      assert ps[0] in ps;
      assert ps[0].Bytes()[0] == Print(ps[0].v)[0];
    }
  }

  lemma {:induction false} GlueString(ps: seq<Piece>)
    requires AllProper(ps)
    ensures Stops(ParseString(Glue(ps)))
  {
    if ps != [] {
      assert ps[0] in ps;
      var p, rest := ps[0].Bytes(), Glue(ps[1..]);
      var t := p + rest;
      GlueStarts(ps[1..]);
      PieceStarts(ps[0]);
      if |p| == 1 {
        GlueString(ps[1..]);
        assert t[1..] == rest;
      } else {
        assert t[1] == '"' && (|p| > 2 ==> t[2] == 'k');
        assert t[1..][1..] == t[2..];
        assert |p| == 2 ==> t[2..] == rest;
      }
    }
  }

  lemma PieceStarts(p: Piece)
    requires Proper(p)
    ensures var b := p.Bytes();
      b[0] == '{' && (|b| > 1 ==> b[1] == '"') && (|b| > 2 ==> b[2] == 'k')
  {
    var s := Print(p.v);
    assert s[0] == '{' && s[1] == '"' && s[2] == 'k' by {
      assert s[..3] == "{\"k";
      assert s[..3][0] == s[0] && s[..3][1] == s[1] && s[..3][2] == s[2];
    }
  }

  /** The parser reads the first object if it is whole, and nothing if it is cut. */
  lemma {:induction false} GlueValue(ps: seq<Piece>)
    requires AllProper(ps) && ps != []
    ensures ParseValue(Glue(ps)) == if ps[0].Whole() then Some((ps[0].v, Glue(ps[1..]))) else None
  {
    assert ps[0] in ps;
    var p, rest := ps[0], Glue(ps[1..]);
    GlueStarts(ps[1..]);
    hide ParseValue, ParseString, Print, WellFormed;
    if p.Whole() {
      assert p.Bytes() == Print(p.v);
      ValueRoundTrip(p.v, rest);
    } else if ps[1..] == [] {
      assert p.Bytes() + [] == p.Bytes();
      TornValueIsNone(p.v, p.n);
    } else {
      GlueString(ps[1..]);
      GlueValue(ps[1..]);
      GlueStarts(ps[2..]);
      assert ps[1..][1..] == ps[2..];
      CutValue(p.v, p.n, rest);
    }
  }

  /** Of pieces run together, only one that is whole and alone is JSON. */
  lemma GlueParses(ps: seq<Piece>)
    requires AllProper(ps) && ps != []
    ensures Parse(Glue(ps)) == if |ps| == 1 && ps[0].Whole() then Some(ps[0].v) else None
  {
    GlueValue(ps);
    GlueStarts(ps[1..]);
    StuckStays(Glue(ps[1..]));
  }
}
