/** What the redaction of parse errors guarantees: which text it leaves, that
    the hidden values do not influence it, and that it is idempotent. */
module RedactionTheorems {
  import opened Prelude
  import opened Redaction

  // ---------------------------------------------------------------------
  // Markers: the texts the passes look for
  // ---------------------------------------------------------------------

  predicate IsQuote(c: char) {
    c == '"' || c == '`'
  }

  predicate NoQuote(s: string) {
    forall i | 0 <= i < |s| :: !IsQuote(s[i])
  }

  /** A text that ends with a space and an opening quote, and has no other
      quote or parenthesis in it. */
  predicate Marker(q: string) {
    && |q| >= 3
    && IsQuote(q[|q| - 1])
    && q[|q| - 2] == ' '
    && (forall i | 0 <= i < |q| - 1 :: !IsQuote(q[i]) && q[i] != ')')
  }

  ghost predicate Free(s: string, q: string) {
    forall i :: !OccursAt(s, q, i)
  }

  /** A short plain key of n characters and its closing backtick lie at `from`. */
  predicate KeySpan(s: string, from: int, n: nat) {
    0 <= from && 0 < n && from + n < |s| && s[from + n] == '`' && IsBareKey(s[from..from + n])
  }

  ghost predicate KeyAt(s: string, from: int) {
    exists n: nat :: KeySpan(s, from, n)
  }

  /** Whatever follows a marker is a closed key. */
  ghost predicate OnlyKeys(s: string, q: string) {
    forall i | OccursAt(s, q, i) :: KeyAt(s, i + |q|)
  }

  lemma MarkersAre()
    ensures Marker(INTEGER) && Marker(FLOAT) && Marker(FIELD) && Marker(DUPLICATE)
    ensures forall k: Kind :: Marker(k.Trigger())
    ensures NoQuote(HIDDEN) && forall k: Kind :: NoQuote(k.Prefix())
  {
    assert Marker(StringValue.Trigger()) && Marker(Variant.Trigger());
  }

  lemma OccursChar(s: string, q: string, i: nat, k: nat)
    requires OccursAt(s, q, i) && k < |q|
    ensures s[i + k] == q[k]
  {
    assert s[i..i + |q|][k] == s[i + k];
  }

  /** A marker's occurrence in a prefix or a suffix is one in the whole, and back. */
  lemma OccursIn(a: string, b: string, q: string, i: int)
    ensures OccursAt(a, q, i) ==> OccursAt(a + b, q, i)
    ensures OccursAt(b, q, i) ==> OccursAt(a + b, q, |a| + i)
    ensures OccursAt(a + b, q, i) && i + |q| <= |a| ==> OccursAt(a, q, i)
    ensures OccursAt(a + b, q, i) && i >= |a| ==> OccursAt(b, q, i - |a|)
  {
    if 0 <= i && i + |q| <= |a| {
      assert (a + b)[i..i + |q|] == a[i..i + |q|];
    }
    if 0 <= i && i + |q| <= |b| {
      assert (a + b)[|a| + i..|a| + i + |q|] == b[i..i + |q|];
    }
    if |a| <= i && i + |q| <= |a + b| {
      assert (a + b)[i..i + |q|] == b[i - |a|..i - |a| + |q|];
    }
  }

  /** No marker lies across a seam whose left side ends with a quote or a `)`. */
  lemma NoneAcross(a: string, b: string, q: string, i: int)
    requires Marker(q) && OccursAt(a + b, q, i)
    requires a != "" && (IsQuote(a[|a| - 1]) || a[|a| - 1] == ')')
    ensures OccursAt(a, q, i) || OccursAt(b, q, i - |a|)
  {
    OccursIn(a, b, q, i);
    if i < |a| < i + |q| {
      OccursChar(a + b, q, i, |a| - 1 - i);
    }
  }

  /** Appending text without quotes brings no marker. */
  lemma NoneInTail(a: string, b: string, q: string, i: int)
    requires Marker(q) && NoQuote(b) && OccursAt(a + b, q, i)
    ensures OccursAt(a, q, i)
  {
    OccursIn(a, b, q, i);
    OccursChar(a + b, q, i, |q| - 1);
  }

  lemma FreeSplit(a: string, b: string, q: string)
    requires Marker(q) && Free(a, q) && Free(b, q)
    requires a != "" && (IsQuote(a[|a| - 1]) || a[|a| - 1] == ')')
    ensures Free(a + b, q)
  {
    forall i | OccursAt(a + b, q, i) ensures false {
      NoneAcross(a, b, q, i);
    }
  }

  lemma FreeSuffix(s: string, from: nat, q: string)
    requires from <= |s| && Free(s, q)
    ensures Free(s[from..], q)
  {
    assert s == s[..from] + s[from..];
    forall i | OccursAt(s[from..], q, i) ensures false {
      OccursIn(s[..from], s[from..], q, i);
    }
  }

  // ---------------------------------------------------------------------
  // The first pass leaves no trigger
  // ---------------------------------------------------------------------

  lemma HideValuesClears(s: string, k: Kind)
    ensures Free(HideValues(s), k.Trigger())
    decreases |s|
  {
    hide HideValues, Next, AfterValue;
    MarkersAre();
    var next := Next(s);
    if next.None? {
      HideValuesLast(s);
    } else {
      var (at, kind) := next.value;
      var q := k.Trigger();
      var rest := AfterValue(s, at, kind);
      HideValuesStep(s, at, kind);
      HideValuesClears(rest, k);
      var out := s[..at] + kind.Prefix() + HIDDEN;
      assert s == s[..at] + s[at..];
      forall i | OccursAt(out, q, i) ensures false {
        NoneInTail(s[..at] + kind.Prefix(), HIDDEN, q, i);
        NoneInTail(s[..at], kind.Prefix(), q, i);
        OccursIn(s[..at], s[at..], q, i);
      }
      FreeSplit(out, HideValues(rest), q);
    }
  }

  // ---------------------------------------------------------------------
  // The later passes
  // ---------------------------------------------------------------------

  lemma QuotedParts(s: string, from: nat)
    requires from <= |s|
    ensures var n := |Quoted(s, from)|;
         && from + n <= |s| && s[..from] + Quoted(s, from) == s[..from + n]
         && AfterQuoted(s, from) == s[Min(from + n + 1, |s|)..]
         && (from + n < |s| ==> s[from + n] == '`')
         && (forall i | from <= i < from + n :: s[i] != '`')
  {
    var n := IndexOf(s[from..], '`');
    assert Quoted(s, from) == s[from..from + n];
    assert s[..from] + s[from..from + n] == s[..from + n];
    forall i | from <= i < from + n ensures s[i] != '`' {
      assert s[from..][i - from] == s[i];
    }
  }

  lemma ShownEnds(s: string, from: nat, keepKeys: bool)
    requires 0 < from <= |s|
    ensures var y := Shown(s, from, keepKeys);
         y != "" && (IsQuote(y[|y| - 1]) || y[|y| - 1] == ')')
  {}

  /** Every marker in what a later pass writes stood in its input, at the same
      place; and not in the place of the pass's own marker when its value is hidden. */
  lemma ShownMarkers(s: string, from: nat, keepKeys: bool, q: string, i: int)
    requires 0 < from <= |s| && Marker(q)
    requires OccursAt(Shown(s, from, keepKeys), q, i)
    ensures OccursAt(s, q, i)
    ensures if Kept(keepKeys, Quoted(s, from)) then i + |q| <= from + |Quoted(s, from)| else i + |q| < from
  {
    HiddenNoQuote();
    QuotedParts(s, from);
    var value := Quoted(s, from);
    if Kept(keepKeys, value) {
      KeptMarkers(s, from, value, q, i);
    } else {
      hide Quoted, AfterQuoted, HIDDEN, Marker;
      NoneInTail(s[..from - 1], HIDDEN, q, i);
      assert s == s[..from - 1] + s[from - 1..];
      OccursIn(s[..from - 1], s[from - 1..], q, i);
      OccursEnds(s[..from - 1], q, i);
    }
  }

  lemma HiddenNoQuote()
    ensures NoQuote(HIDDEN)
  {
    MarkersAre();
  }

  lemma OccursEnds(s: string, q: string, i: int)
    requires OccursAt(s, q, i)
    ensures i + |q| <= |s|
  {}

  lemma KeyEnds(value: string)
    requires IsBareKey(value)
    ensures value[|value| - 1] != ' '
  {
    assert IsKeyChar(value[|value| - 1]);
  }

  /** In front of a closed key and its backtick, no marker ends at the backtick. */
  lemma KeptMarkers(s: string, from: nat, value: string, q: string, i: int)
    requires Marker(q) && IsBareKey(value) && from + |value| <= |s| && s[..from] + value == s[..from + |value|]
    requires OccursAt(s[..from] + value + "`", q, i)
    ensures OccursAt(s, q, i) && i + |q| <= from + |value|
  {
    KeyEnds(value);
    hide IsBareKey;
    var n := from + |value|;
    var y := s[..n] + "`";
    assert y[|y| - 2] == value[|value| - 1];
    OccursChar(y, q, i, |q| - 2);
    OccursIn(s[..n], "`", q, i);
    assert s == s[..n] + s[n..];
    OccursIn(s[..n], s[n..], q, i);
  }

  lemma LaterPassKeepsFree(s: string, p: string, keepKeys: bool, q: string)
    requires Marker(p) && Marker(q) && Free(s, q)
    ensures Free(HideBackticked(s, p, keepKeys), q)
    decreases |s|
  {
    hide HideBackticked, Shown, Quoted, AfterQuoted, FindFrom;
    var found := Find(s, p);
    if found.None? {
      HideBacktickedLast(s, p, keepKeys);
    } else {
      var from := found.value + |p|;
      HideBacktickedStep(s, p, keepKeys, found.value);
      var rest := AfterQuoted(s, from);
      QuotedParts(s, from);
      FreeSuffix(s, |s| - |rest|, q);
      LaterPassKeepsFree(rest, p, keepKeys, q);
      var y := Shown(s, from, keepKeys);
      forall i | OccursAt(y, q, i) ensures false {
        ShownMarkers(s, from, keepKeys, q, i);
      }
      ShownEnds(s, from, keepKeys);
      FreeSplit(y, HideBackticked(rest, p, keepKeys), q);
    }
  }

  /** A pass that keeps nothing leaves none of its markers. */
  lemma LaterPassClears(s: string, p: string)
    requires Marker(p)
    ensures Free(HideBackticked(s, p, false), p)
    decreases |s|
  {
    hide HideBackticked, Shown, Quoted, AfterQuoted, FindFrom;
    var found := Find(s, p);
    if found.None? {
      HideBacktickedLast(s, p, false);
    } else {
      var from := found.value + |p|;
      HideBacktickedStep(s, p, false, found.value);
      var rest := AfterQuoted(s, from);
      LaterPassClears(rest, p);
      var y := Shown(s, from, false);
      forall i | OccursAt(y, p, i) ensures false {
        ShownMarkers(s, from, false, p, i);
      }
      ShownEnds(s, from, false);
      FreeSplit(y, HideBackticked(rest, p, false), p);
    }
  }

  lemma KeySpanAt(s: string, from: int, n: nat)
    requires KeySpan(s, from, n)
    ensures KeyAt(s, from)
  {}

  lemma KeySpanIn(a: string, b: string, from: int, n: nat)
    ensures KeySpan(a, from, n) ==> KeySpan(a + b, from, n)
    ensures 0 <= from ==> KeySpan(b, from, n) == KeySpan(a + b, |a| + from, n)
  {
    if 0 <= from && from + n < |a| {
      assert (a + b)[from..from + n] == a[from..from + n];
    }
    if 0 <= from && from + n < |b| {
      assert (a + b)[|a| + from..|a| + from + n] == b[from..from + n];
    }
  }

  lemma KeyAtIn(a: string, b: string, from: int)
    ensures KeyAt(a, from) ==> KeyAt(a + b, from)
    ensures 0 <= from ==> KeyAt(b, from) == KeyAt(a + b, |a| + from)
  {
    hide KeySpan;
    if KeyAt(a, from) {
      var n: nat :| KeySpan(a, from, n);
      KeySpanIn(a, b, from, n);
    }
    if 0 <= from && KeyAt(b, from) {
      var n: nat :| KeySpan(b, from, n);
      KeySpanIn(a, b, from, n);
    }
    if 0 <= from && KeyAt(a + b, |a| + from) {
      var n: nat :| KeySpan(a + b, |a| + from, n);
      KeySpanIn(a, b, from, n);
    }
  }

  lemma OnlyKeysJoin(a: string, b: string, q: string)
    requires Marker(q) && OnlyKeys(a, q) && OnlyKeys(b, q)
    requires a != "" && (IsQuote(a[|a| - 1]) || a[|a| - 1] == ')')
    ensures OnlyKeys(a + b, q)
  {
    hide KeyAt;
    forall i | OccursAt(a + b, q, i) ensures KeyAt(a + b, i + |q|) {
      NoneAcross(a, b, q, i);
      KeyAtIn(a, b, i + |q|);
      KeyAtIn(a, b, i + |q| - |a|);
    }
  }

  lemma OnlyKeysSuffix(s: string, from: nat, q: string)
    requires from <= |s| && OnlyKeys(s, q)
    ensures OnlyKeys(s[from..], q)
  {
    hide KeyAt;
    assert s == s[..from] + s[from..];
    forall i | OccursAt(s[from..], q, i) ensures KeyAt(s[from..], i + |q|) {
      OccursIn(s[..from], s[from..], q, i);
      KeyAtIn(s[..from], s[from..], i + |q|);
    }
  }

  /** The key at `from` is what the pass reads there. */
  lemma KeyIsQuoted(s: string, from: nat)
    requires from <= |s|
    ensures KeyAt(s, from) <==> from + |Quoted(s, from)| < |s| && IsBareKey(Quoted(s, from))
  {
    hide Quoted, AfterQuoted;
    QuotedParts(s, from);
    var m := |Quoted(s, from)|;
    assert Quoted(s, from) == s[from..from + m] by {
      assert (s[..from] + Quoted(s, from))[from..] == s[..from + m][from..];
    }
    assert from + m < |s| && IsBareKey(Quoted(s, from)) ==> KeySpan(s, from, m);
    if KeyAt(s, from) {
      var n: nat :| KeySpan(s, from, n);
      assert forall i | from <= i < from + n :: s[i] == s[from..from + n][i - from];
      assert m == n;
    }
  }

  // ---------------------------------------------------------------------
  // The passes that keep plain keys
  // ---------------------------------------------------------------------

  /** A closed key stays one in what a later pass writes, unless it begins
      behind it: it can neither hold nor follow the pass's own marker. */
  lemma ShownKey(s: string, p: string, at: nat, keepKeys: bool, a: nat, n: nat)
    requires Marker(p) && p[|p| - 1] == '`' && OccursAt(s, p, at) && KeySpan(s, a, n)
    requires var value := Quoted(s, at + |p|);
         a <= at + |p| + (if Kept(keepKeys, value) then |value| else -1)
    ensures KeySpan(Shown(s, at + |p|, keepKeys), a, n)
  {
    hide Quoted, AfterQuoted, IsBareKey;
    var from := at + |p|;
    QuotedParts(s, from);
    var m := if Kept(keepKeys, Quoted(s, from)) then from + |Quoted(s, from)| else from - 1;
    OccursChar(s, p, at, |p| - 1);
    OccursChar(s, p, at, |p| - 2);
    hide OccursAt, Marker;
    if a <= m < a + n { KeyChars(s, a, n, m); }
    if a <= m - 1 < a + n { KeyChars(s, a, n, m - 1); }
    assert a + n <= m;
    KeySpanKept(s, Shown(s, from, keepKeys), m, a, n);
  }

  /** A key in a common front stays a key, if its backtick does. */
  lemma KeySpanKept(s: string, y: string, m: nat, a: nat, n: nat)
    requires KeySpan(s, a, n) && a + n <= m <= |s| && m <= |y| && y[..m] == s[..m]
    requires a + n == m ==> |y| > m && y[m] == '`'
    ensures KeySpan(y, a, n)
  {
    hide IsBareKey;
    SliceOfFront(y, m, a, a + n);
    SliceOfFront(s, m, a, a + n);
    if a + n < m { assert y[..m][a + n] == s[..m][a + n]; }
  }

  lemma SliceOfFront(s: string, m: nat, i: nat, j: nat)
    requires i <= j <= m <= |s|
    ensures s[i..j] == s[..m][i..j]
  {}

  lemma KeyChars(s: string, a: nat, n: nat, i: int)
    requires KeySpan(s, a, n) && a <= i < a + n
    ensures s[i] != '`' && s[i] != ' '
  {
    assert s[i] == s[a..a + n][i - a];
  }

  /** A pass that keeps plain keys leaves its marker before closed keys only. */
  lemma LaterPassOnlyKeys(s: string, p: string)
    requires Marker(p)
    ensures OnlyKeys(HideBackticked(s, p, true), p)
    decreases |s|
  {
    hide HideBackticked, Quoted, AfterQuoted, FindFrom, KeyAt;
    var found := Find(s, p);
    if found.None? {
      HideBacktickedLast(s, p, true);
    } else {
      var at := found.value;
      var from := at + |p|;
      HideBacktickedStep(s, p, true, at);
      var rest := AfterQuoted(s, from);
      LaterPassOnlyKeys(rest, p);
      var y := Shown(s, from, true);
      forall i | OccursAt(y, p, i) ensures KeyAt(y, i + |p|) {
        ShownMarkers(s, from, true, p, i);
        assert i == at;
        var value := Quoted(s, from);
        QuotedParts(s, from);
        assert y[from..from + |value|] == value;
        assert KeySpan(y, from, |value|);
        KeySpanAt(y, from, |value|);
      }
      ShownEnds(s, from, true);
      OnlyKeysJoin(y, HideBackticked(rest, p, true), p);
    }
  }

  lemma LaterPassKeepsOnlyKeys(s: string, p: string, keepKeys: bool, q: string)
    requires Marker(p) && p[|p| - 1] == '`' && Marker(q) && OnlyKeys(s, q)
    ensures OnlyKeys(HideBackticked(s, p, keepKeys), q)
    decreases |s|
  {
    hide HideBackticked, Quoted, AfterQuoted, FindFrom, Shown, KeySpan;
    var found := Find(s, p);
    if found.None? {
      HideBacktickedLast(s, p, keepKeys);
    } else {
      var at := found.value;
      var from := at + |p|;
      HideBacktickedStep(s, p, keepKeys, at);
      var rest := AfterQuoted(s, from);
      QuotedParts(s, from);
      OnlyKeysSuffix(s, |s| - |rest|, q);
      LaterPassKeepsOnlyKeys(rest, p, keepKeys, q);
      var y := Shown(s, from, keepKeys);
      forall i | OccursAt(y, q, i) ensures KeyAt(y, i + |q|) {
        ShownMarkers(s, from, keepKeys, q, i);
        var n: nat :| KeySpan(s, i + |q|, n);
        ShownKey(s, p, at, keepKeys, i + |q|, n);
      }
      ShownEnds(s, from, keepKeys);
      OnlyKeysJoin(y, HideBackticked(rest, p, keepKeys), q);
    }
  }

  /** A pass does not touch a text that has its marker before closed keys only. */
  lemma LaterPassIdle(s: string, p: string)
    requires Marker(p) && OnlyKeys(s, p)
    ensures HideBackticked(s, p, true) == s
    decreases |s|
  {
    hide HideBackticked, Quoted, AfterQuoted, FindFrom, KeyAt, IsBareKey;
    var found := Find(s, p);
    if found.None? {
      HideBacktickedLast(s, p, true);
    } else {
      var from := found.value + |p|;
      HideBacktickedStep(s, p, true, found.value);
      KeyIsQuoted(s, from);
      QuotedParts(s, from);
      var n := |Quoted(s, from)|;
      OnlyKeysSuffix(s, from + n + 1, p);
      LaterPassIdle(s[from + n + 1..], p);
      assert Shown(s, from, true) == s[..from + n + 1];
    }
  }

  // ---------------------------------------------------------------------
  // What redacted text looks like, and that redacting it again does nothing
  // ---------------------------------------------------------------------

  /** No pass finds work: no quote opens behind "string ", "unknown variant ",
      "integer " or "float ", and behind the words for a field or a key stands one
      that looks plain. Values behind other words may show, as
      `RedactionLimits.FloatIsShown` says. */
  ghost predicate Settled(s: string) {
    && (forall k: Kind :: Free(s, k.Trigger()))
    && Free(s, INTEGER) && Free(s, FLOAT)
    && OnlyKeys(s, FIELD) && OnlyKeys(s, DUPLICATE)
  }

  lemma RedactedIsSettled(message: string)
    ensures Settled(Redact(message))
  {
    hide HideValues, HideBackticked, Free, OnlyKeys, Marker, Kind.Trigger;
    MarkersAre();
    var a := HideValues(message);
    var b := HideBackticked(a, INTEGER, false);
    var c := HideBackticked(b, FLOAT, false);
    var d := HideBackticked(c, FIELD, true);
    forall k: Kind ensures Free(Redact(message), k.Trigger()) {
      var q := k.Trigger();
      HideValuesClears(message, k);
      LaterPassKeepsFree(a, INTEGER, false, q);
      LaterPassKeepsFree(b, FLOAT, false, q);
      LaterPassKeepsFree(c, FIELD, true, q);
      LaterPassKeepsFree(d, DUPLICATE, true, q);
    }
    LaterPassClears(a, INTEGER);
    LaterPassKeepsFree(b, FLOAT, false, INTEGER);
    LaterPassKeepsFree(c, FIELD, true, INTEGER);
    LaterPassKeepsFree(d, DUPLICATE, true, INTEGER);
    LaterPassClears(b, FLOAT);
    LaterPassKeepsFree(c, FIELD, true, FLOAT);
    LaterPassKeepsFree(d, DUPLICATE, true, FLOAT);
    LaterPassOnlyKeys(c, FIELD);
    LaterPassOnlyKeys(d, DUPLICATE);
    assert DUPLICATE[|DUPLICATE| - 1] == '`';
    LaterPassKeepsOnlyKeys(d, DUPLICATE, true, FIELD);
  }

  /** The texts that redaction leaves as they are, are exactly those. */
  lemma RedactIsIdleExactWhen(message: string)
    ensures Redact(message) == message <==> Settled(message)
  {
    hide HideValues, HideBackticked, Next, OnlyKeys;
    MarkersAre();
    RedactedIsSettled(message);
    if Settled(message) {
      HideValuesLast(message);
      HideBacktickedLast(message, INTEGER, false);
      HideBacktickedLast(message, FLOAT, false);
      LaterPassIdle(message, FIELD);
      LaterPassIdle(message, DUPLICATE);
    }
  }

  lemma RedactIsIdempotent(message: string)
    ensures Redact(Redact(message)) == Redact(message)
  {
    RedactedIsSettled(message);
    RedactIsIdleExactWhen(Redact(message));
  }

  // ---------------------------------------------------------------------
  // The hidden values do not influence the result
  // ---------------------------------------------------------------------

  /** A piece of a message: plain text, then a value of one of the two kinds. */
  datatype Segment = Segment(text: string, kind: Kind, value: string)

  /** Rust's `Debug` rendering of a string's characters; which characters count
      as printable is left open. */
  function Escaped(value: string, printable: char -> bool): string {
    if value == "" then "" else EscapedChar(value[0], printable) + Escaped(value[1..], printable)
  }

  function EscapedChar(c: char, printable: char -> bool): string {
    match c
    case '"' => "\\\""
    case '\\' => "\\\\"
    case '\0' => "\\0"
    case '\t' => "\\t"
    case '\r' => "\\r"
    case '\n' => "\\n"
    case _ => if printable(c) then [c] else "\\u{" + Hex(c as int) + "}"
  }

  function Hex(n: nat): (digits: string)
    ensures NoQuote(digits) && forall i | 0 <= i < |digits| :: digits[i] != '\\'
  {
    (if n < 16 then "" else Hex(n / 16)) + ["0123456789abcdef"[n % 16]]
  }

  function Rendered(seg: Segment, printable: char -> bool): string {
    seg.text + seg.kind.Trigger()
    + (if seg.kind.StringValue? then Escaped(seg.value, printable) else seg.value) + [seg.kind.Close()]
  }

  function Message(segs: seq<Segment>, tail: string, printable: char -> bool): string {
    if segs == [] then tail else Rendered(segs[0], printable) + Message(segs[1..], tail, printable)
  }

  /** The message with every value replaced. */
  function HiddenMessage(segs: seq<Segment>, tail: string): string {
    if segs == [] then tail
    else segs[0].text + segs[0].kind.Prefix() + HIDDEN + HiddenMessage(segs[1..], tail)
  }

  ghost predicate Plain(text: string) {
    forall k: Kind :: Free(text, k.Trigger())
  }

  ghost predicate Proper(segs: seq<Segment>) {
    forall seg | seg in segs ::
      Plain(seg.text) && (seg.kind.Variant? ==> forall i | 0 <= i < |seg.value| :: seg.value[i] != '`')
  }

  /** Text without quotes, backslashes and pending escape is passed over. */
  lemma PlainIsPassed(p: string, s: string)
    requires IsPlain(p)
    ensures EndOf(p + s, '"', false) ==
            match EndOf(s, '"', false) case None => None case Some(n) => Some(|p| + n)
  {
    if p == "" {
      assert p + s == s;
    } else {
      PlainIsPassed(p[1..], s);
      assert (p + s)[1..] == p[1..] + s;
    }
  }

  predicate IsPlain(p: string) {
    forall i | 0 <= i < |p| :: p[i] != '"' && p[i] != '\\'
  }

  /** An escaped character is one plain character, or a backslash, any
      character and plain text. */
  lemma EscapedShape(c: char, printable: char -> bool)
    ensures var e := EscapedChar(c, printable);
      if e[0] == '\\' then |e| > 1 && IsPlain(e[2..]) else |e| == 1 && IsPlain(e)
  {}

  lemma PairIsPassed(x: char, p: string, s: string)
    requires IsPlain(p)
    ensures EndOf(['\\', x] + p + s, '"', false) ==
            match EndOf(s, '"', false) case None => None case Some(n) => Some(2 + |p| + n)
  {
    PlainIsPassed(p, s);
    var t := ['\\', x] + p + s;
    assert t[1..][1..] == p + s;
  }

  lemma EscapedCharIsPassed(c: char, printable: char -> bool, s: string)
    ensures EndOf(EscapedChar(c, printable) + s, '"', false) ==
            match EndOf(s, '"', false) case None => None case Some(n) => Some(|EscapedChar(c, printable)| + n)
  {
    EscapedShape(c, printable);
    hide EscapedChar, EndOf;
    var e := EscapedChar(c, printable);
    if e[0] == '\\' {
      PairIsPassed(e[1], e[2..], s);
      assert e == ['\\', e[1]] + e[2..];
    } else {
      PlainIsPassed(e, s);
    }
  }

  lemma CloseIsFound(close: char, rest: string)
    ensures EndOf("" + ([close] + rest), close, false) == Some(1)
  {
    assert ("" + ([close] + rest))[0] == close;
  }

  /** The scan consumes exactly an escaped string and its closing quote. */
  lemma {:induction false} EscapedIsConsumed(value: string, printable: char -> bool, rest: string)
    ensures EndOf(Escaped(value, printable) + ("\"" + rest), '"', false)
         == Some(|Escaped(value, printable)| + 1)
  {
    if value == "" {
      CloseIsFound('"', rest);
    } else {
      EscapedStep(value, printable);
      hide Escaped, EscapedChar, EndOf;
      var e, more := EscapedChar(value[0], printable), Escaped(value[1..], printable);
      EscapedIsConsumed(value[1..], printable, rest);
      EscapedCharIsPassed(value[0], printable, more + ("\"" + rest));
      Regroup(e, more, "\"" + rest);
    }
  }

  lemma EscapedStep(value: string, printable: char -> bool)
    requires value != ""
    ensures Escaped(value, printable) == EscapedChar(value[0], printable) + Escaped(value[1..], printable)
  {
    hide EscapedChar;
  }

  /** The same for text without backticks and its closing backtick. */
  lemma {:induction false} BacktickFreeIsConsumed(value: string, rest: string)
    requires forall i | 0 <= i < |value| :: value[i] != '`'
    ensures EndOf(value + ("`" + rest), '`', false) == Some(|value| + 1)
  {
    if value == "" {
      assert "" + ("`" + rest) == "`" + rest;
    } else {
      BacktickFreeIsConsumed(value[1..], rest);
      assert (value + ("`" + rest))[1..] == value[1..] + ("`" + rest);
    }
  }

  /** After plain text the search finds the value that stands there. */
  lemma FirstTrigger(text: string, kind: Kind, rest: string)
    requires Plain(text)
    ensures Next(text + kind.Trigger() + rest) == Some((|text|, kind))
  {
    hide Next;
    MarkersAre();
    var t := text + kind.Trigger();
    var s := t + rest;
    OccursIn(text, kind.Trigger(), kind.Trigger(), 0);
    OccursIn(t, rest, kind.Trigger(), |text|);
    forall k: Kind, j | 0 <= j <= |text| && OccursAt(s, k.Trigger(), j)
      ensures j == |text| && k == kind
    {
      NoneAcross(t, rest, k.Trigger(), j);
      OccursChar(t, k.Trigger(), j, |k.Trigger()| - 1);
      NotInPrefix(text, kind, k, j);
    }
    NextIs(s, |text|, kind);
  }

  lemma NotInPrefix(text: string, kind: Kind, k: Kind, j: nat)
    requires Plain(text) && OccursAt(text + kind.Trigger(), k.Trigger(), j)
    ensures j == |text| && k == kind
  {
    MarkersAre();
    var t := text + kind.Trigger();
    OccursChar(t, k.Trigger(), j, |k.Trigger()| - 1);
    if j + |k.Trigger()| < |t| {
      assert t == text + kind.Prefix() + [kind.Close()];
      OccursIn(text + kind.Prefix(), [kind.Close()], k.Trigger(), j);
      NoneInTail(text, kind.Prefix(), k.Trigger(), j);
      assert false;
    }
    assert t[|t| - 1] == kind.Close();
  }

  lemma NextIs(s: string, at: nat, kind: Kind)
    requires OccursAt(s, kind.Trigger(), at)
    requires forall k: Kind, j | 0 <= j <= at && OccursAt(s, k.Trigger(), j) :: j == at && k == kind
    ensures Next(s) == Some((at, kind))
  {
    var next := Next(s);
    assert next.Some?;
    var (a, k) := next.value;
    assert OccursAt(s, k.Trigger(), a);
    assert a <= at;
  }

  lemma RenderedIsHidden(seg: Segment, printable: char -> bool, rest: string)
    requires Proper([seg])
    ensures Next(Rendered(seg, printable) + rest) == Some((|seg.text|, seg.kind))
    ensures AfterValue(Rendered(seg, printable) + rest, |seg.text|, seg.kind) == rest
  {
    hide Next, EndOf, Kind.Trigger, Kind.Close, Escaped;
    assert seg in [seg];
    var t := seg.text + seg.kind.Trigger();
    var v := if seg.kind.StringValue? then Escaped(seg.value, printable) else seg.value;
    var body := v + ([seg.kind.Close()] + rest);
    var s := Rendered(seg, printable) + rest;
    assert s == t + body;
    FirstTrigger(seg.text, seg.kind, body);
    assert s[|t|..] == body;
    assert EndOf(body, seg.kind.Close(), false) == Some(|v| + 1) by {
      CloseIs(seg.kind);
      if seg.kind.StringValue? {
        EscapedIsConsumed(seg.value, printable, rest);
      } else {
        BacktickFreeIsConsumed(seg.value, rest);
      }
    }
    assert body[|v| + 1..] == rest;
  }

  lemma CloseIs(kind: Kind)
    ensures [kind.Close()] == if kind.StringValue? then "\"" else "`"
  {}

  /** The first pass replaces exactly the values. */
  lemma {:induction false} HideValuesIsExact(segs: seq<Segment>, tail: string, printable: char -> bool)
    requires Proper(segs) && Plain(tail)
    ensures HideValues(Message(segs, tail, printable)) == HiddenMessage(segs, tail)
  {
    hide HideValues, Next, Rendered, AfterValue, Kind.Trigger;
    if segs == [] {
      HideValuesLast(tail);
    } else {
      var rest := Message(segs[1..], tail, printable);
      var s := Rendered(segs[0], printable) + rest;
      RenderedIsHidden(segs[0], printable, rest);
      HideValuesIsExact(segs[1..], tail, printable);
      HideValuesStep(s, |segs[0].text|, segs[0].kind);
      RenderedBegins(segs[0], printable, rest);
    }
  }

  lemma RenderedBegins(seg: Segment, printable: char -> bool, rest: string)
    ensures |seg.text| <= |Rendered(seg, printable) + rest|
    ensures (Rendered(seg, printable) + rest)[..|seg.text|] == seg.text
  {}

  predicate SameButValues(a: seq<Segment>, b: seq<Segment>) {
    |a| == |b| && forall i | 0 <= i < |a| :: a[i].text == b[i].text && a[i].kind == b[i].kind
  }

  lemma {:induction false} HiddenDependsOnText(a: seq<Segment>, b: seq<Segment>, tail: string)
    requires SameButValues(a, b)
    ensures HiddenMessage(a, tail) == HiddenMessage(b, tail)
  {
    if a != [] {
      HiddenDependsOnText(a[1..], b[1..], tail);
    }
  }

  /** Two messages that differ only in their quoted values redact to the same text. */
  lemma ValuesDoNotShow(a: seq<Segment>, b: seq<Segment>, tail: string, printable: char -> bool)
    requires Proper(a) && Proper(b) && Plain(tail) && SameButValues(a, b)
    ensures Redact(Message(a, tail, printable)) == Redact(Message(b, tail, printable))
  {
    hide Proper, Message, HiddenMessage, SameButValues, HideValues, HideBackticked;
    HideValuesIsExact(a, tail, printable);
    HideValuesIsExact(b, tail, printable);
    HiddenDependsOnText(a, b, tail);
  }

  // ---------------------------------------------------------------------
  // What a later pass does to a message
  // ---------------------------------------------------------------------

  /** Plain text, then a backtick-quoted text behind a pass's marker. */
  datatype Quotation = Quotation(text: string, quoted: string)

  function Quoting(parts: seq<Quotation>, tail: string, p: string): string {
    if parts == [] then tail
    else parts[0].text + p + (parts[0].quoted + ("`" + Quoting(parts[1..], tail, p)))
  }

  /** Plain keys stay, where the pass keeps them; all else is replaced. */
  function QuotingShown(parts: seq<Quotation>, tail: string, p: string, keepKeys: bool): string
    requires p != ""
  {
    if parts == [] then tail
    else
      (if Kept(keepKeys, parts[0].quoted) then parts[0].text + p + parts[0].quoted + "`"
       else parts[0].text + p[..|p| - 1] + HIDDEN)
      + QuotingShown(parts[1..], tail, p, keepKeys)
  }

  ghost predicate ProperQuotations(parts: seq<Quotation>, p: string) {
    forall part | part in parts :: Free(part.text, p) && forall i | 0 <= i < |part.quoted| :: part.quoted[i] != '`'
  }

  lemma FirstMarker(text: string, p: string, rest: string)
    requires Marker(p) && Free(text, p)
    ensures Find(text + p + rest, p) == Some(|text|)
  {
    var t := text + p;
    OccursIn(text, p, p, 0);
    OccursIn(t, rest, p, |text|);
    forall j: nat | j < |text| ensures !OccursAt(t + rest, p, j) {
      NotBefore(text, p, rest, j);
    }
    FoundAt(t + rest, p, |text|);
  }

  lemma FoundAt(s: string, p: string, at: nat)
    requires OccursAt(s, p, at) && forall j: nat | j < at :: !OccursAt(s, p, j)
    ensures Find(s, p) == Some(at)
  {
    hide OccursAt, FindFrom;
    OccursLength(s, p, at);
  }

  lemma OccursLength(s: string, p: string, at: nat)
    requires OccursAt(s, p, at)
    ensures at + |p| <= |s|
  {}

  lemma NotBefore(text: string, p: string, rest: string, j: nat)
    requires Marker(p) && Free(text, p) && j < |text|
    ensures !OccursAt(text + p + rest, p, j)
  {
    var t := text + p;
    if OccursAt(t + rest, p, j) {
      NoneAcross(t, rest, p, j);
      OccursChar(t, p, j, |p| - 1);
      OccursIn(text, p, p, j);
    }
  }

  lemma {:induction false} IndexOfFirst(a: string, c: char, b: string)
    requires forall i | 0 <= i < |a| :: a[i] != c
    ensures IndexOf(a + ([c] + b), c) == |a|
  {
    if a == "" {
      assert a + ([c] + b) == [c] + b;
    } else {
      IndexOfFirst(a[1..], c, b);
      assert (a + ([c] + b))[1..] == a[1..] + ([c] + b);
    }
  }

  lemma QuotedIsRead(front: string, quoted: string, rest: string)
    requires forall i | 0 <= i < |quoted| :: quoted[i] != '`'
    ensures var s := front + (quoted + ("`" + rest));
      && Quoted(s, |front|) == quoted && AfterQuoted(s, |front|) == rest && s[..|front|] == front
  {
    var s := front + (quoted + ("`" + rest));
    assert s[|front|..] == quoted + ("`" + rest);
    IndexOfFirst(quoted, '`', rest);
    assert s[|front|..|front| + |quoted|] == quoted;
    assert s[|front| + |quoted| + 1..] == rest;
  }

  /** A later pass changes the quoted texts that are not kept, and nothing else. */
  lemma {:induction false} LaterPassIsExact(parts: seq<Quotation>, tail: string, p: string, keepKeys: bool)
    requires Marker(p) && ProperQuotations(parts, p) && Free(tail, p)
    ensures HideBackticked(Quoting(parts, tail, p), p, keepKeys) == QuotingShown(parts, tail, p, keepKeys)
  {
    hide HideBackticked, FindFrom, Quoted, AfterQuoted, IsBareKey, Quoting, QuotingShown, OccursAt, Marker;
    MarkerIsText(p);
    QuotingStep(parts, tail, p, keepKeys);
    if parts == [] {
      HideBacktickedLast(tail, p, keepKeys);
    } else {
      var part, rest := parts[0], Quoting(parts[1..], tail, p);
      var front := part.text + p;
      var s := front + (part.quoted + ("`" + rest));
      FirstMarker(part.text, p, part.quoted + ("`" + rest));
      HideBacktickedStep(s, p, keepKeys, |part.text|);
      QuotedIsRead(front, part.quoted, rest);
      LaterPassIsExact(parts[1..], tail, p, keepKeys);
      FrontCut(s, part.text, p);
    }
  }

  lemma MarkerIsText(p: string)
    requires Marker(p)
    ensures p != ""
  {}

  lemma FrontCut(s: string, text: string, p: string)
    requires p != "" && |text + p| <= |s| && s[..|text + p|] == text + p
    ensures s[..|text + p| - 1] == text + p[..|p| - 1]
  {
    assert s[..|text + p| - 1] == s[..|text + p|][..|text + p| - 1];
  }

  lemma QuotingStep(parts: seq<Quotation>, tail: string, p: string, keepKeys: bool)
    requires p != ""
    ensures parts == [] ==> Quoting(parts, tail, p) == tail == QuotingShown(parts, tail, p, keepKeys)
    ensures parts != [] ==>
      && Quoting(parts, tail, p) == parts[0].text + p + (parts[0].quoted + ("`" + Quoting(parts[1..], tail, p)))
      && QuotingShown(parts, tail, p, keepKeys)
         == (if Kept(keepKeys, parts[0].quoted) then parts[0].text + p + parts[0].quoted + "`"
             else parts[0].text + p[..|p| - 1] + HIDDEN)
            + QuotingShown(parts[1..], tail, p, keepKeys)
  {}
}
