/** The redaction of parse errors (src/config.rs): a scanner that hides quoted
    values, escapes included, and four passes over backtick-quoted text. */
module Redaction {
  import opened Prelude

  const HIDDEN := "(value not shown)"
  const INTEGER := "integer `"
  const FLOAT := "float `"
  const FIELD := "unknown field `"
  const DUPLICATE := "duplicate key `"

  /** The two kinds of value the first pass hides. */
  datatype Kind = StringValue | Variant {
    /** The text that stays before the value. */
    function Prefix(): string {
      if StringValue? then "string " else "unknown variant "
    }

    function Close(): char {
      if StringValue? then '"' else '`'
    }

    /** What the scanner looks for. */
    function Trigger(): string {
      Prefix() + [Close()]
    }
  }

  // ---------------------------------------------------------------------
  // Searching
  // ---------------------------------------------------------------------

  /** `str::find`, from a position on. */
  function FindFrom(s: string, part: string, from: nat): (at: Option<nat>)
    requires from <= |s|
    ensures at.Some? ==> from <= at.value && OccursAt(s, part, at.value)
    ensures at.Some? ==> forall j | from <= j < at.value :: !OccursAt(s, part, j)
    ensures at.None? ==> forall j | from <= j :: !OccursAt(s, part, j)
    decreases |s| - from
  {
    if OccursAt(s, part, from) then Some(from)
    else if from == |s| then None
    else FindFrom(s, part, from + 1)
  }

  function Find(s: string, part: string): Option<nat> {
    FindFrom(s, part, 0)
  }

  /** The length of the closed value: up to and with the first closing character
      that no backslash escapes. Only strings have escapes. */
  function EndOf(body: string, close: char, escaped: bool): (end: Option<nat>)
    ensures end.Some? ==> 1 <= end.value <= |body|
  {
    if body == "" then None
    else if body[0] == close && !escaped then Some(1)
    else
      match EndOf(body[1..], close, close == '"' && body[0] == '\\' && !escaped)
      case None => None
      case Some(n) => Some(n + 1)
  }

  /** The next value to hide, if any. */
  function Next(s: string): (next: Option<(nat, Kind)>)
    ensures next.Some? ==> OccursAt(s, next.value.1.Trigger(), next.value.0)
    ensures next.Some? ==> forall k: Kind, j | 0 <= j < next.value.0 :: !OccursAt(s, k.Trigger(), j)
    ensures next.None? ==> forall k: Kind, j :: !OccursAt(s, k.Trigger(), j)
  {
    match (Find(s, StringValue.Trigger()), Find(s, Variant.Trigger()))
    case (Some(a), Some(v)) => if v < a then Some((v, Variant)) else Some((a, StringValue))
    case (Some(a), None) => Some((a, StringValue))
    case (None, Some(v)) => Some((v, Variant))
    case (None, None) => None
  }

  /** What follows the value that starts after a trigger at `at`. */
  function AfterValue(s: string, at: nat, kind: Kind): (rest: string)
    requires OccursAt(s, kind.Trigger(), at)
    ensures |rest| < |s|
  {
    var body := s[at + |kind.Trigger()|..];
    match EndOf(body, kind.Close(), false)
    case None => ""
    case Some(n) => body[n..]
  }

  /** The first pass. */
  function HideValues(s: string): string
    decreases |s|
  {
    match Next(s)
    case None => s
    case Some((at, kind)) => s[..at] + kind.Prefix() + HIDDEN + HideValues(AfterValue(s, at, kind))
  }

  predicate IsKeyChar(c: char) {
    'a' <= c <= 'z' || 'A' <= c <= 'Z' || '0' <= c <= '9' || c == '_' || c == '-'
  }

  predicate IsBareKey(key: string) {
    key != "" && |key| <= 40 && forall i | 0 <= i < |key| :: IsKeyChar(key[i])
  }

  function IndexOf(s: string, c: char): (n: nat)
    ensures n <= |s| && (n < |s| ==> s[n] == c)
    ensures forall i | 0 <= i < n :: s[i] != c
  {
    if s == "" || s[0] == c then 0 else 1 + IndexOf(s[1..], c)
  }

  /** The backtick-quoted text after a prefix that ends at `from`, or all the
      rest when nothing closes it. */
  function Quoted(s: string, from: nat): string
    requires from <= |s|
  {
    s[from..from + IndexOf(s[from..], '`')]
  }

  function AfterQuoted(s: string, from: nat): (rest: string)
    requires from <= |s|
    ensures |rest| <= |s| - from
  {
    var end := from + IndexOf(s[from..], '`');
    if end < |s| then s[end + 1..] else ""
  }

  predicate Kept(keepKeys: bool, value: string) {
    keepKeys && IsBareKey(value)
  }

  /** What a later pass writes up to the end of a quoted text. */
  function Shown(s: string, from: nat, keepKeys: bool): string
    requires 0 < from <= |s|
  {
    var value := Quoted(s, from);
    if Kept(keepKeys, value) then s[..from] + value + "`" else s[..from - 1] + HIDDEN
  }

  /** One of the four later passes. */
  function HideBackticked(s: string, prefix: string, keepKeys: bool): string
    requires prefix != ""
    decreases |s|
  {
    match Find(s, prefix)
    case None => s
    case Some(at) =>
      var from := at + |prefix|;
      Shown(s, from, keepKeys) + HideBackticked(AfterQuoted(s, from), prefix, keepKeys)
  }

  function Redact(message: string): string {
    var a := HideValues(message);
    var b := HideBackticked(a, INTEGER, false);
    var c := HideBackticked(b, FLOAT, false);
    var d := HideBackticked(c, FIELD, true);
    HideBackticked(d, DUPLICATE, true)
  }

  // ---------------------------------------------------------------------
  // The loops
  // ---------------------------------------------------------------------

  lemma HideValuesStep(s: string, at: nat, kind: Kind)
    requires Next(s) == Some((at, kind))
    ensures HideValues(s) == s[..at] + kind.Prefix() + HIDDEN + HideValues(AfterValue(s, at, kind))
  {}

  lemma HideValuesLast(s: string)
    requires Next(s).None?
    ensures HideValues(s) == s
  {}

  lemma HideBacktickedLast(s: string, prefix: string, keepKeys: bool)
    requires prefix != "" && Find(s, prefix).None?
    ensures HideBackticked(s, prefix, keepKeys) == s
  {}

  lemma HideBacktickedStep(s: string, prefix: string, keepKeys: bool, at: nat)
    requires prefix != "" && Find(s, prefix) == Some(at)
    ensures HideBackticked(s, prefix, keepKeys)
         == Shown(s, at + |prefix|, keepKeys) + HideBackticked(AfterQuoted(s, at + |prefix|), prefix, keepKeys)
  {
    hide Shown, AfterQuoted, FindFrom, IsBareKey;
  }

  /** The end of the quoted value, by the scan over its characters. */
  method ScanEnd(body: string, close: char) returns (end: Option<nat>)
    ensures end == EndOf(body, close, false)
  {
    var i, escaped := 0, false;
    assert body[0..] == body;
    while i < |body|
      invariant i <= |body|
      invariant EndOf(body, close, false)
             == (match EndOf(body[i..], close, escaped) case None => None case Some(n) => Some(n + i))
    {
      var c := body[i];
      var hit := c == close && !escaped;
      assert body[i..][1..] == body[i + 1..];
      escaped := close == '"' && c == '\\' && !escaped;
      if hit {
        return Some(i + 1);
      }
      i := i + 1;
    }
    return None;
  }

  lemma Regroup(a: string, b: string, c: string)
    ensures a + (b + c) == a + b + c
  {}

  /** One round of the scanner's loop. */
  method HideOne(rest: string, at: nat, kind: Kind, before: string) returns (out: string, after: string)
    requires OccursAt(rest, kind.Trigger(), at)
    ensures out == before + (rest[..at] + kind.Prefix() + HIDDEN)
    ensures after == AfterValue(rest, at, kind)
  {
    hide EndOf;
    out := before + rest[..at];
    out := out + kind.Prefix();
    out := out + HIDDEN;
    var body := rest[at + |kind.Prefix()| + 1..];
    var end := ScanEnd(body, kind.Close());
    after := if end.Some? then body[end.value..] else "";
  }

  /** The scanner's loop over `out` and `rest`. */
  method RedactQuoted(message: string) returns (out: string)
    ensures out == HideValues(message)
  {
    hide HideValues, Next, EndOf, AfterValue, Kind.Prefix, Kind.Trigger;
    out := "";
    var rest := message;
    while true
      invariant out + HideValues(rest) == HideValues(message)
      decreases |rest|
    {
      var next := Next(rest);
      if next.None? {
        HideValuesLast(rest);
        break;
      }
      var (at, kind) := next.value;
      HideValuesStep(rest, at, kind);
      Regroup(out, rest[..at] + kind.Prefix() + HIDDEN, HideValues(AfterValue(rest, at, kind)));
      out, rest := HideOne(rest, at, kind, out);
    }
    out := out + rest;
  }

  /** The quoted text and what follows its closing backtick. */
  method ReadQuoted(rest: string, from: nat) returns (value: string, after: string)
    requires from <= |rest|
    ensures value == Quoted(rest, from) && after == AfterQuoted(rest, from)
  {
    var body := rest[from..];
    var close := IndexOf(body, '`');
    value := body[..close];
    after := if close < |body| then body[close + 1..] else "";
  }

  /** One round of a later pass. */
  method ShowOne(rest: string, from: nat, keepKeys: bool, before: string) returns (out: string, after: string)
    requires 0 < from <= |rest|
    ensures out == before + Shown(rest, from, keepKeys)
    ensures after == AfterQuoted(rest, from)
  {
    hide IndexOf, Quoted, AfterQuoted, IsBareKey, HIDDEN;
    var value;
    value, after := ReadQuoted(rest, from);
    if Kept(keepKeys, value) {
      out := before + rest[..from];
      out := out + value;
      out := out + "`";
      RegroupThree(before, rest[..from], value, "`");
    } else {
      out := before + rest[..from];
      DropLast(before, rest, from);
      out := out[..|out| - 1];
      out := out + HIDDEN;
      Regroup(before, rest[..from - 1], HIDDEN);
    }
  }

  lemma RegroupThree(a: string, b: string, c: string, d: string)
    ensures a + b + c + d == a + (b + c + d)
  {}

  lemma DropLast(a: string, s: string, n: nat)
    requires 0 < n <= |s|
    ensures (a + s[..n])[..|a + s[..n]| - 1] == a + s[..n - 1]
  {}

  /** The loop of a later pass. */
  method RedactBackticked(message: string, prefix: string, keepKeys: bool) returns (out: string)
    requires prefix != ""
    ensures out == HideBackticked(message, prefix, keepKeys)
  {
    hide HideBackticked, FindFrom, Shown, AfterQuoted;
    out := "";
    var rest := message;
    while true
      invariant out + HideBackticked(rest, prefix, keepKeys) == HideBackticked(message, prefix, keepKeys)
      decreases |rest|
    {
      var found := Find(rest, prefix);
      if found.None? {
        HideBacktickedLast(rest, prefix, keepKeys);
        break;
      }
      var from := found.value + |prefix|;
      HideBacktickedStep(rest, prefix, keepKeys, found.value);
      Regroup(out, Shown(rest, from, keepKeys), HideBackticked(AfterQuoted(rest, from), prefix, keepKeys));
      out, rest := ShowOne(rest, from, keepKeys, out);
    }
    out := out + rest;
  }

  method RedactMessage(message: string) returns (out: string)
    ensures out == Redact(message)
  {
    out := RedactQuoted(message);
    out := RedactBackticked(out, INTEGER, false);
    out := RedactBackticked(out, FLOAT, false);
    out := RedactBackticked(out, FIELD, true);
    out := RedactBackticked(out, DUPLICATE, true);
  }
}
