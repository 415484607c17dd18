/** JSON as the ledger writes it and as any reader reads it back.

    The printer is serde_json's compact form, byte for byte. The parser follows
    the grammar of RFC 8259 (whitespace and every escape included) and knows
    nothing of the printer. */
module JsonText {
  import opened Prelude

  datatype Json =
    | Null
    | Bool(b: bool)
    | Number(token: Text)
    | String(text: Text)
    | Array(items: seq<Json>)
    | Object(members: seq<Member>)

  datatype Member = Member(key: Text, value: Json)

  // ---------------------------------------------------------------------
  // Well-formed values
  // ---------------------------------------------------------------------

  predicate IsDigit(c: Byte) {
    '0' <= c <= '9'
  }

  predicate IsNumberChar(c: Byte) {
    IsDigit(c) || c == '-' || c == '+' || c == '.' || c == 'e' || c == 'E'
  }

  function DropDigits(t: Text): Text {
    if t != [] && IsDigit(t[0]) then DropDigits(t[1..]) else t
  }

  /** Section 6 of RFC 8259: an optional minus, an integer, an optional
      fraction, an optional exponent. */
  predicate IsNumber(t: Text) {
    && t != []
    && (forall i | 0 <= i < |t| :: IsNumberChar(t[i]))
    && IsUnsigned(if t[0] == '-' then t[1..] else t)
  }

  predicate IsUnsigned(t: Text) {
    && t != [] && IsDigit(t[0])
    && var rest := if t[0] == '0' then t[1..] else DropDigits(t);
       if rest != [] && rest[0] == '.'
       then |rest| > 1 && IsDigit(rest[1]) && IsExponent(DropDigits(rest[1..]))
       else IsExponent(rest)
  }

  predicate IsExponent(t: Text) {
    t == [] ||
    ((t[0] == 'e' || t[0] == 'E') &&
     var rest := if |t| > 1 && (t[1] == '+' || t[1] == '-') then t[2..] else t[1..];
     rest != [] && IsDigit(rest[0]) && DropDigits(rest) == [])
  }

  predicate HasKey(members: seq<Member>, key: Text) {
    exists i | 0 <= i < |members| :: members[i].key == key
  }

  /** A `serde_json::Value`: numbers are numbers, no object repeats a key. */
  ghost predicate WellFormed(v: Json) {
    match v
    case Number(token) => IsNumber(token)
    case Array(items) => forall i | 0 <= i < |items| :: WellFormed(items[i])
    case Object(members) =>
      && (forall i, j | 0 <= i < j < |members| :: members[i].key != members[j].key)
      && (forall i | 0 <= i < |members| :: WellFormed(members[i].value))
    case _ => true
  }

  // ---------------------------------------------------------------------
  // Printing
  // ---------------------------------------------------------------------

  function HexDigit(n: nat): Byte
    requires n < 16
  {
    if n < 10 then ('0' as int + n) as char else ('a' as int + n - 10) as char
  }

  function EscapeByte(c: Byte): Text {
    if c == '"' then ['\\', '"']
    else if c == '\\' then ['\\', '\\']
    else if c as int == 8 then ['\\', 'b']
    else if c as int == 9 then ['\\', 't']
    else if c as int == 10 then ['\\', 'n']
    else if c as int == 12 then ['\\', 'f']
    else if c as int == 13 then ['\\', 'r']
    else if c as int < 32 then ['\\', 'u', '0', '0', HexDigit(c as int / 16), HexDigit(c as int % 16)]
    else [c]
  }

  function Escape(t: Text): Text {
    if t == [] then [] else EscapeByte(t[0]) + Escape(t[1..])
  }

  function Quote(t: Text): Text {
    ['"'] + Escape(t) + ['"']
  }

  function Print(v: Json): Text
    decreases v, 1
  {
    match v
    case Null => "null"
    case Bool(b) => if b then "true" else "false"
    case Number(token) => token
    case String(text) => Quote(text)
    case Array(items) => ['['] + PrintItems(items) + [']']
    case Object(members) => ['{'] + PrintMembers(members) + ['}']
  }

  function PrintItems(items: seq<Json>): Text
    decreases items, 0
  {
    if items == [] then []
    else Print(items[0]) + (if |items| == 1 then [] else [','] + PrintItems(items[1..]))
  }

  function PrintMembers(members: seq<Member>): Text
    decreases members, 0
  {
    if members == [] then []
    else
      Quote(members[0].key) + [':'] + Print(members[0].value)
      + (if |members| == 1 then [] else [','] + PrintMembers(members[1..]))
  }

  // ---------------------------------------------------------------------
  // Parsing
  // ---------------------------------------------------------------------

  predicate IsSpace(c: Byte) {
    c == ' ' || c == '\t' || c == '\n' || c == '\r'
  }

  function SkipSpace(t: Text): (rest: Text)
    ensures |rest| <= |t|
  {
    if t != [] && IsSpace(t[0]) then SkipSpace(t[1..]) else t
  }

  function HexValue(c: Byte): Option<nat> {
    if '0' <= c <= '9' then Some(c as int - '0' as int)
    else if 'a' <= c <= 'f' then Some(c as int - 'a' as int + 10)
    else if 'A' <= c <= 'F' then Some(c as int - 'A' as int + 10)
    else None
  }

  /** The four hexadecimal digits of a `\u` escape. */
  function Hex4(t: Text): (code: Option<nat>)
    ensures code.Some? ==> |t| >= 4 && code.value < 0x10000
  {
    if |t| < 4 then None
    else
      match (HexValue(t[0]), HexValue(t[1]), HexValue(t[2]), HexValue(t[3]))
      case (Some(a), Some(b), Some(c), Some(d)) =>
        if a < 16 && b < 16 && c < 16 && d < 16 then Some(4096 * a + 256 * b + 16 * c + d) else None
      case _ => None
  }

  function ByteOf(n: int): Byte
    requires 0 <= n < 256
  {
    n as char
  }

  function Utf8(code: nat): Text
    requires code < 0x110000
  {
    if code < 0x80 then [ByteOf(code)]
    else if code < 0x800 then [ByteOf(0xC0 + code / 64), ByteOf(0x80 + code % 64)]
    else if code < 0x10000 then
      [ByteOf(0xE0 + code / 4096), ByteOf(0x80 + code / 64 % 64), ByteOf(0x80 + code % 64)]
    else
      [ByteOf(0xF0 + code / 262144), ByteOf(0x80 + code / 4096 % 64),
       ByteOf(0x80 + code / 64 % 64), ByteOf(0x80 + code % 64)]
  }

  /** The character of a two-character escape, or nothing. */
  function SimpleEscape(c: Byte): Text {
    if c == '"' || c == '\\' || c == '/' then [c]
    else if c == 'b' then [8 as char]
    else if c == 't' then ['\t']
    else if c == 'n' then ['\n']
    else if c == 'f' then [12 as char]
    else if c == 'r' then ['\r']
    else []
  }

  /** What a backslash introduces, and the text after it (section 7 of RFC
      8259): a pair of surrogates is one character, a lone one is an error. */
  function Unescape(t: Text): (r: Option<(Text, Text)>)
    requires t != []
    ensures r.Some? ==> |r.value.1| < |t|
  {
    var simple := SimpleEscape(t[0]);
    if simple != [] then Some((simple, t[1..]))
    else if t[0] != 'u' then None
    else
      match Hex4(t[1..])
      case None => None
      case Some(code) =>
        if code < 0xD800 || 0xE000 <= code then Some((Utf8(code), t[5..]))
        else if 0xDC00 <= code || |t| < 7 || t[5] != '\\' || t[6] != 'u' then None
        else
          match Hex4(t[7..])
          case Some(low) =>
            if 0xDC00 <= low < 0xE000
            then Some((Utf8(0x10000 + (code - 0xD800) * 1024 + (low - 0xDC00)), t[11..]))
            else None
          case None => None
  }

  /** The rest of a string, its opening quote already read. */
  function ParseString(t: Text): (r: Option<(Text, Text)>)
    ensures r.Some? ==> |r.value.1| < |t|
    decreases |t|
  {
    if t == [] || t[0] as int < 32 then None
    else if t[0] == '"' then Some(([], t[1..]))
    else if t[0] == '\\' then
      if |t| == 1 then None
      else
        match Unescape(t[1..])
        case None => None
        case Some((chars, rest)) =>
          match ParseString(rest)
          case None => None
          case Some((tail, after)) => Some((chars + tail, after))
    else
      match ParseString(t[1..])
      case None => None
      case Some((tail, after)) => Some(([t[0]] + tail, after))
  }

  function NumberLength(t: Text): (n: nat)
    ensures n <= |t|
  {
    if t != [] && IsNumberChar(t[0]) then 1 + NumberLength(t[1..]) else 0
  }

  function ParseValue(text: Text): (r: Option<(Json, Text)>)
    ensures r.Some? ==> |r.value.1| < |text|
    decreases |text|, 1
  {
    var t := SkipSpace(text);
    if t == [] then None
    else if "null" <= t then Some((Null, t[4..]))
    else if "true" <= t then Some((Bool(true), t[4..]))
    else if "false" <= t then Some((Bool(false), t[5..]))
    else if t[0] == '"' then
      match ParseString(t[1..])
      case None => None
      case Some((s, rest)) => Some((String(s), rest))
    else if t[0] == '[' then
      var inside := SkipSpace(t[1..]);
      if inside != [] && inside[0] == ']' then Some((Array([]), inside[1..]))
      else
        match ParseItems(inside)
        case None => None
        case Some((items, rest)) => Some((Array(items), rest))
    else if t[0] == '{' then
      var inside := SkipSpace(t[1..]);
      if inside != [] && inside[0] == '}' then Some((Object([]), inside[1..]))
      else
        match ParseMembers(inside)
        case None => None
        case Some((members, rest)) => Some((Object(members), rest))
    else
      var n := NumberLength(t);
      if IsNumber(t[..n]) then Some((Number(t[..n]), t[n..])) else None
  }

  /** One or more values, then the closing bracket. */
  function ParseItems(t: Text): (r: Option<(seq<Json>, Text)>)
    ensures r.Some? ==> |r.value.1| < |t|
    decreases |t|, 2
  {
    match ParseValue(t)
    case None => None
    case Some((v, after)) =>
      var rest := SkipSpace(after);
      if rest == [] then None
      else if rest[0] == ']' then Some(([v], rest[1..]))
      else if rest[0] != ',' then None
      else
        match ParseItems(rest[1..])
        case None => None
        case Some((more, end)) => Some(([v] + more, end))
  }

  /** One or more `"key": value`, then the closing brace. */
  function ParseMembers(text: Text): (r: Option<(seq<Member>, Text)>)
    ensures r.Some? ==> |r.value.1| < |text|
    decreases |text|, 2
  {
    var t := SkipSpace(text);
    if t == [] || t[0] != '"' then None
    else
      match ParseString(t[1..])
      case None => None
      case Some((key, afterKey)) =>
        var colon := SkipSpace(afterKey);
        if colon == [] || colon[0] != ':' then None
        else
          match ParseValue(colon[1..])
          case None => None
          case Some((v, after)) =>
            var rest := SkipSpace(after);
            if rest == [] then None
            else if rest[0] == '}' then Some(([Member(key, v)], rest[1..]))
            else if rest[0] != ',' then None
            else
              match ParseMembers(rest[1..])
              case None => None
              case Some((more, end)) => Some(([Member(key, v)] + more, end))
  }

  /** A whole document: one value and nothing but whitespace around it. */
  function Parse(t: Text): Option<Json> {
    match ParseValue(t)
    case Some((v, rest)) => if SkipSpace(rest) == [] then Some(v) else None
    case None => None
  }
}
