/** Printed JSON and text lengths, in the characters of RFC 8259 and the bytes of
    UTF-8. */
module JsonMeaning {
  import opened Prelude
  import opened JsonText
  import opened EvalSchema

  // ---------------------------------------------------------------------
  // Values
  // ---------------------------------------------------------------------

  /** Texts with commas between them. */
  function Joined(texts: seq<Text>): Text {
    if texts == [] then []
    else if |texts| == 1 then texts[0]
    else texts[0] + [','] + Joined(texts[1..])
  }

  function Prints(items: seq<Json>): (texts: seq<Text>)
    ensures |texts| == |items|
  {
    seq(|items|, i requires 0 <= i < |items| => Print(items[i]))
  }

  /** A member's key in quotes, a colon and its value. */
  function MemberPrints(members: seq<Member>): (texts: seq<Text>)
    ensures |texts| == |members|
  {
    seq(|members|, i requires 0 <= i < |members| => Quote(members[i].key) + [':'] + Print(members[i].value))
  }

  lemma {:induction false} ItemsAreJoined(items: seq<Json>)
    ensures PrintItems(items) == Joined(Prints(items))
  {
    hide Print;
    if |items| > 1 {
      ItemsAreJoined(items[1..]);
      assert Prints(items)[1..] == Prints(items[1..]);
      AppendIsGrouped(Print(items[0]), [','], PrintItems(items[1..]));
    }
  }

  lemma {:induction false} MembersAreJoined(members: seq<Member>)
    ensures PrintMembers(members) == Joined(MemberPrints(members))
  {
    hide Print, Quote;
    if |members| > 1 {
      MembersAreJoined(members[1..]);
      assert MemberPrints(members)[1..] == MemberPrints(members[1..]);
      AppendIsGrouped(MemberPrints(members)[0], [','], PrintMembers(members[1..]));
    }
  }

  lemma AppendIsGrouped(a: Text, b: Text, c: Text)
    ensures a + (b + c) == a + b + c
  {}

  /** Literals are spelled as the grammar has them, numbers are their tokens, and
      lists and objects are their parts with commas between, in brackets. */
  lemma PrintsAreJson(b: bool, token: Text, items: seq<Json>, members: seq<Member>)
    ensures Print(Null) == "null" && Print(Bool(b)) == (if b then "true" else "false")
    ensures Print(Number(token)) == token
    ensures Print(Array(items)) == ['['] + Joined(Prints(items)) + [']']
    ensures Print(Object(members)) == ['{'] + Joined(MemberPrints(members)) + ['}']
  {
    ItemsAreJoined(items);
    MembersAreJoined(members);
    hide PrintItems, PrintMembers, Joined, Prints, MemberPrints;
  }

  // ---------------------------------------------------------------------
  // Strings
  // ---------------------------------------------------------------------

  /** The value of a lower-case hexadecimal digit. */
  predicate IsHexOf(c: Byte, n: int) {
    (0 <= n < 10 && c as int == 48 + n) || (10 <= n < 16 && c as int == 87 + n)
  }

  /** A byte in a string stands for itself, but for quotes, backslashes and
      control characters, which have their two-character or `\u00` escapes. */
  lemma EscapesAreJson(c: Byte)
    ensures var n, e := c as int, EscapeByte(c);
      if n == 34 then e == "\\\""
      else if n == 92 then e == "\\\\"
      else if n == 8 then e == "\\b"
      else if n == 9 then e == "\\t"
      else if n == 10 then e == "\\n"
      else if n == 12 then e == "\\f"
      else if n == 13 then e == "\\r"
      else if n < 32 then
        |e| == 6 && e[..4] == "\\u00" && IsHexOf(e[4], n / 16) && IsHexOf(e[5], n % 16)
      else e == [c]
  {
    var n, e := c as int, EscapeByte(c);
    if n < 32 && |e| == 6 { assert e[..4] == ['\\', 'u', '0', '0']; }
  }

  /** A string is printed byte by byte, between quotes. */
  lemma {:induction false} StringsArePrintedByByte(a: Text, c: Byte, b: Text)
    ensures Quote([]) == "\"\""
    ensures Escape(a + [c] + b) == Escape(a) + EscapeByte(c) + Escape(b)
    ensures Quote(a) == ['"'] + Escape(a) + ['"']
  {
    hide EscapeByte;
    if a == [] {
      assert [] + [c] + b == [c] + b && ([c] + b)[1..] == b;
    } else {
      assert (a + [c] + b)[1..] == a[1..] + [c] + b;
      StringsArePrintedByByte(a[1..], c, b);
      AppendIsGrouped(EscapeByte(a[0]), Escape(a[1..]), EscapeByte(c) + Escape(b));
      AppendIsGrouped(Escape(a[1..]), EscapeByte(c), Escape(b));
      AppendIsGrouped(EscapeByte(a[0]) + Escape(a[1..]), EscapeByte(c), Escape(b));
    }
  }

  // ---------------------------------------------------------------------
  // Lengths and a sound set
  // ---------------------------------------------------------------------

  /** The bytes of a text. */
  function Encoded(text: string): Text {
    if text == "" then [] else Encoded(text[..|text| - 1]) + Utf8(text[|text| - 1] as int)
  }

  /** The length that the schema limits is that of the UTF-8 encoding. */
  lemma {:induction false} ByteLengthIsEncoded(text: string)
    ensures ByteLength(text) == |Encoded(text)|
  {
    if text != "" { ByteLengthIsEncoded(text[..|text| - 1]); }
  }
}
