/** A line that was cut short is no JSON: the parser's answer to a text that
    ends a value does not change when more text follows. */
module JsonTorn {
  import opened Prelude
  import opened JsonText
  import opened JsonRoundTrip

  lemma {:induction false} SkipSpaceExtends(t: Text, x: Text)
    requires SkipSpace(t) != []
    ensures SkipSpace(t + x) == SkipSpace(t) + x
  {
    if IsSpace(t[0]) {
      SkipSpaceExtends(t[1..], x);
      assert (t + x)[1..] == t[1..] + x;
    }
  }

  lemma {:induction false} SkipSpaceAtText(t: Text)
    ensures SkipSpace(t) != [] ==> !IsSpace(SkipSpace(t)[0])
  {
    if t != [] && IsSpace(t[0]) { SkipSpaceAtText(t[1..]); }
  }

  lemma Hex4Extends(t: Text, x: Text)
    requires Hex4(t).Some?
    ensures Hex4(t + x) == Hex4(t)
  {}

  lemma UnescapeExtends(t: Text, x: Text)
    requires t != [] && Unescape(t).Some?
    ensures Unescape(t + x) == Some((Unescape(t).value.0, Unescape(t).value.1 + x))
  {
    hide Hex4, Utf8, SimpleEscape;
    assert (t + x)[1..] == t[1..] + x;
    if SimpleEscape(t[0]) == [] {
      Hex4Extends(t[1..], x);
      assert (t + x)[5..] == t[5..] + x;
      if |t| >= 7 {
        assert (t + x)[7..] == t[7..] + x;
        if Hex4(t[7..]).Some? {
          Hex4Extends(t[7..], x);
          assert (t + x)[11..] == t[11..] + x;
        }
      }
    }
  }

  lemma {:induction false} StringExtends(t: Text, x: Text)
    requires ParseString(t).Some?
    ensures ParseString(t + x) == Some((ParseString(t).value.0, ParseString(t).value.1 + x))
    decreases |t|
  {
    hide Unescape;
    assert (t + x)[1..] == t[1..] + x;
    if t[0] == '"' {
    } else if t[0] == '\\' {
      UnescapeExtends(t[1..], x);
      var rest := Unescape(t[1..]).value.1;
      StringExtends(rest, x);
    } else {
      StringExtends(t[1..], x);
    }
  }

  lemma {:induction false} NumberLengthExtends(t: Text, x: Text)
    requires NumberLength(t) < |t|
    ensures NumberLength(t + x) == NumberLength(t)
  {
    if IsNumberChar(t[0]) {
      NumberLengthExtends(t[1..], x);
      assert (t + x)[1..] == t[1..] + x;
    }
  }

  /** What a parse of `t` that ends before `x` says of `t + x`. */
  predicate Extends<T(==)>(short: Option<(T, Text)>, long: Option<(T, Text)>, x: Text) {
    short.Some? ==> long == Some((short.value.0, short.value.1 + x))
  }

  /** The literals, strings and numbers, at a text without leading space. */
  lemma ScalarExtends(text: Text, x: Text)
    requires ParseValue(text).Some?
    requires ParseValue(text).value.0.Number? ==> ParseValue(text).value.1 != []
    requires !ParseValue(text).value.0.Array? && !ParseValue(text).value.0.Object?
    ensures Extends(ParseValue(text), ParseValue(text + x), x)
  {
    hide ParseItems, ParseMembers, IsNumber, ParseString, SkipSpace, NumberLength;
    var t := SkipSpace(text);
    SkipSpaceExtends(text, x);
    if "null" <= t || "true" <= t || "false" <= t {
      LiteralExtends(text, x);
    } else if t[0] == '"' {
      NotLiteral(t, x);
      assert (t + x)[1..] == t[1..] + x;
      StringExtends(t[1..], x);
    } else {
      NumberExtends(text, x);
    }
  }

  lemma LiteralExtends(text: Text, x: Text)
    requires var t := SkipSpace(text); "null" <= t || "true" <= t || "false" <= t
    requires SkipSpace(text + x) == SkipSpace(text) + x
    ensures Extends(ParseValue(text), ParseValue(text + x), x)
  {
    hide ParseItems, ParseMembers, IsNumber, ParseString, SkipSpace, NumberLength;
    var t := SkipSpace(text);
    assert (t + x)[4..] == t[4..] + x;
    if "false" <= t {
      assert (t + x)[5..] == t[5..] + x;
    }
  }

  lemma NumberExtends(text: Text, x: Text)
    requires ParseValue(text).Some? && ParseValue(text).value.0.Number? && ParseValue(text).value.1 != []
    requires SkipSpace(text) != [] && SkipSpace(text + x) == SkipSpace(text) + x
    ensures Extends(ParseValue(text), ParseValue(text + x), x)
  {
    hide ParseItems, ParseMembers, IsNumber, ParseString, SkipSpace, NumberLength;
    var t := SkipSpace(text);
    var n := NumberLength(t);
    NumberStarts(t, n);
    NotLiteral(t, x);
    NumberLengthExtends(t, x);
    assert (t + x)[..n] == t[..n] && (t + x)[n..] == t[n..] + x;
    assert (t + x)[0] == t[0];
    NumberOnly(text, t, n);
    NumberOnly(text + x, t + x, n);
  }

  /** A text that starts with a number character is parsed as a number or not at all. */
  lemma NumberOnly(text: Text, t: Text, n: nat)
    requires t == SkipSpace(text) && t != [] && n == NumberLength(t) && IsNumberChar(t[0])
    requires !("null" <= t) && !("true" <= t) && !("false" <= t)
    ensures ParseValue(text) == if IsNumber(t[..n]) then Some((Number(t[..n]), t[n..])) else None
  {
    hide ParseItems, ParseMembers, IsNumber, ParseString, SkipSpace, NumberLength;
  }

  lemma NumberStarts(t: Text, n: nat)
    requires n <= |t| && IsNumber(t[..n])
    ensures n > 0 && IsNumberChar(t[0])
  {
    assert t[..n][0] == t[0];
  }

  lemma NotLiteral(t: Text, x: Text)
    requires t != [] && (t[0] == '"' || t[0] == '[' || t[0] == '{' || IsNumberChar(t[0]))
    ensures !("null" <= t + x) && !("true" <= t + x) && !("false" <= t + x)
    ensures !("null" <= t) && !("true" <= t) && !("false" <= t)
  {
    assert (t + x)[0] == t[0];
  }

  /** Only a number can go on where the text ended. */
  lemma {:induction false} ValueExtends(text: Text, x: Text)
    requires ParseValue(text).Some?
    requires ParseValue(text).value.0.Number? ==> ParseValue(text).value.1 != []
    ensures Extends(ParseValue(text), ParseValue(text + x), x)
    decreases |text|, 1
  {
    hide ParseItems, ParseMembers, IsNumber, ParseString, SkipSpace, NumberLength;
    var v := ParseValue(text).value.0;
    if v.Array? || v.Object? {
      var t := SkipSpace(text);
      BracketStarts(text);
      SkipSpaceExtends(text, x);
      NotLiteral(t, x);
      assert (t + x)[1..] == t[1..] + x;
      var inside := SkipSpace(t[1..]);
      SkipSpaceExtends(t[1..], x);
      if inside[0] == (if v.Array? then ']' else '}') {
        assert (inside + x)[1..] == inside[1..] + x;
      } else if v.Array? {
        ItemsExtends(inside, x);
      } else {
        MembersExtends(inside, x);
      }
    } else {
      ScalarExtends(text, x);
    }
  }

  lemma BracketStarts(text: Text)
    requires ParseValue(text).Some? && (ParseValue(text).value.0.Array? || ParseValue(text).value.0.Object?)
    ensures var t := SkipSpace(text);
      && t != [] && t[0] == (if ParseValue(text).value.0.Array? then '[' else '{')
      && SkipSpace(t[1..]) != []
  {
    var t := SkipSpace(text);
    if SkipSpace(t[1..]) == [] {
      assert ParseItems([]).None? && ParseMembers([]).None? by { assert ParseValue([]).None?; }
    }
  }

  lemma {:induction false} ItemsExtends(t: Text, x: Text)
    requires ParseItems(t).Some?
    ensures Extends(ParseItems(t), ParseItems(t + x), x)
    decreases |t|, 2
  {
    hide ParseValue, SkipSpace;
    var (v, after) := ParseValue(t).value;
    var rest := SkipSpace(after);
    assert after != [] by { NoSpaceLeft(); }
    ValueExtends(t, x);
    SkipSpaceExtends(after, x);
    assert (rest + x)[1..] == rest[1..] + x;
    if rest[0] == ',' {
      ItemsExtends(rest[1..], x);
    }
  }

  lemma NoSpaceLeft()
    ensures SkipSpace([]) == []
  {}

  lemma {:induction false} MembersExtends(text: Text, x: Text)
    requires ParseMembers(text).Some?
    ensures Extends(ParseMembers(text), ParseMembers(text + x), x)
    decreases |text|, 2
  {
    hide ParseValue, SkipSpace, ParseString;
    var t := SkipSpace(text);
    SkipSpaceExtends(text, x);
    assert (t + x)[1..] == t[1..] + x;
    StringExtends(t[1..], x);
    var (key, afterKey) := ParseString(t[1..]).value;
    var colon := SkipSpace(afterKey);
    SkipSpaceExtends(afterKey, x);
    assert (colon + x)[1..] == colon[1..] + x;
    var (v, after) := ParseValue(colon[1..]).value;
    var rest := SkipSpace(after);
    assert after != [] by { NoSpaceLeft(); }
    ValueExtends(colon[1..], x);
    SkipSpaceExtends(after, x);
    assert (rest + x)[1..] == rest[1..] + x;
    if rest[0] == ',' {
      MembersExtends(rest[1..], x);
    }
  }

  // ---------------------------------------------------------------------
  // Torn lines
  // ---------------------------------------------------------------------

  lemma TornValueIsNone(v: Json, n: nat)
    requires WellFormed(v) && (v.Object? || v.Array? || v.String?) && n < |Print(v)|
    ensures ParseValue(Print(v)[..n]).None?
  {
    hide ParseValue, SkipSpace, Print, WellFormed;
    var p, x := Print(v)[..n], Print(v)[n..];
    assert p + x == Print(v) && Print(v) + [] == Print(v);
    ValueRoundTrip(v, []);
    if ParseValue(p).Some? {
      NumberNeedsDigits(v, n);
      ValueExtends(p, x);
    }
  }

  /** No proper beginning of a printed object, array or string is JSON, so a
      reader takes no torn line for an entry. */
  lemma TornValueDoesNotParse(v: Json, n: nat)
    requires WellFormed(v) && (v.Object? || v.Array? || v.String?) && n < |Print(v)|
    ensures Parse(Print(v)[..n]).None?
  {
    TornValueIsNone(v, n);
  }

  lemma NumberNeedsDigits(v: Json, n: nat)
    requires (v.Object? || v.Array? || v.String?) && n < |Print(v)|
    requires ParseValue(Print(v)[..n]).Some?
    ensures !ParseValue(Print(v)[..n]).value.0.Number?
  {
    hide ParseItems, ParseMembers, ParseString, PrintItems, PrintMembers, Escape;
    var p := Print(v)[..n];
    if n > 0 {
      assert p[0] == Print(v)[0];
    }
  }

  lemma {:induction false} NumberCharsOnly(t: Text)
    requires forall i | 0 <= i < |t| :: IsNumberChar(t[i])
    ensures NumberLength(t) == |t|
  {
    if t != [] { NumberCharsOnly(t[1..]); }
  }

  lemma TornNumber(token: Text, n: nat)
    requires IsNumber(token) && n < |token|
    ensures Parse(token[..n]) == if IsNumber(token[..n]) then Some(Number(token[..n])) else None
  {
    var t := token[..n];
    hide IsUnsigned;
    if IsNumber(t) {
      PrintedValueParses(Number(t));
    } else if n > 0 {
      assert IsNumberChar(t[0]);
      NumberCharsOnly(t);
      assert SkipSpace(t) == t && t[..|t|] == t;
    }
  }

  lemma TornLiteral(v: Json, n: nat)
    requires (v.Null? || v.Bool?) && n < |Print(v)|
    ensures Parse(Print(v)[..n]).None?
  {
    var t := Print(v)[..n];
    if n > 0 {
      assert t[0] == Print(v)[0];
      assert SkipSpace(t) == t;
      assert NumberLength(t) == 0;
    }
  }

  /** What a beginning of any printed value parses to: only a number can begin
      with a number, and nothing else begins with JSON. */
  lemma TornParsesExactWhen(v: Json, n: nat)
    requires WellFormed(v) && n < |Print(v)|
    ensures Parse(Print(v)[..n])
         == if v.Number? && IsNumber(v.token[..n]) then Some(Number(v.token[..n])) else None
  {
    hide Parse, IsNumber;
    match v {
      case Number(token) => TornNumber(token, n);
      case Null => TornLiteral(v, n);
      case Bool(_) => TornLiteral(v, n);
      case _ => TornValueDoesNotParse(v, n);
    }
  }
}
