/** Where the redaction stops short: a value printed raw between backticks is
    hidden only up to the first backtick it holds, and only behind the words the
    passes look for, which serde's words for a float are not. */
module RedactionLimits {
  import opened Prelude
  import opened Redaction
  import opened RedactionTheorems

  predicate NoBacktick(s: string) {
    forall i | 0 <= i < |s| :: s[i] != '`'
  }

  /** A message with a variant, printed as serde prints it, and what follows. */
  function VariantMessage(text: string, value: string, rest: string): string {
    text + Variant.Trigger() + (value + ("`" + rest))
  }

  /** A message with a text behind a later pass's marker. */
  function QuotedMessage(text: string, p: string, quoted: string, rest: string): string {
    text + p + (quoted + ("`" + rest))
  }

  lemma VariantIsHiddenToBacktick(text: string, a: string, rest: string)
    requires Plain(text) && NoBacktick(a)
    ensures HideValues(VariantMessage(text, a, rest)) == text + Variant.Prefix() + HIDDEN + HideValues(rest)
  {
    hide HideValues, EndOf, Next, Kind.Trigger;
    var t := text + Variant.Trigger();
    var body := a + ("`" + rest);
    var s := t + body;
    FirstTrigger(text, Variant, body);
    HideValuesStep(s, |text|, Variant);
    assert s[|t|..] == body && s[..|text|] == text;
    BacktickFreeIsConsumed(a, rest);
    assert body[|a| + 1..] == rest;
  }

  lemma RegroupQuoted(a: string, b: string, rest: string)
    ensures (a + ("`" + b)) + ("`" + rest) == a + ("`" + (b + ("`" + rest)))
  {}

  /** The scan of a variant ends at its first backtick; what stands behind it
      in the value is scanned as part of the message. */
  lemma VariantShowsBehindBacktick(text: string, a: string, b: string, rest: string)
    requires Plain(text) && NoBacktick(a)
    ensures HideValues(VariantMessage(text, a + ("`" + b), rest))
         == text + Variant.Prefix() + HIDDEN + HideValues(b + ("`" + rest))
    ensures Plain(b + ("`" + rest)) ==>
      HideValues(VariantMessage(text, a + ("`" + b), rest))
      == text + Variant.Prefix() + HIDDEN + (b + ("`" + rest))
  {
    var more := b + ("`" + rest);
    RegroupQuoted(a, b, rest);
    VariantIsHiddenToBacktick(text, a, more);
    if Plain(more) { HideValuesLast(more); }
  }

  /** A variant is hidden before every continuation exactly when it holds no
      backtick. */
  lemma VariantIsHiddenExactWhen(text: string, value: string)
    requires Plain(text)
    ensures (forall rest :: HideValues(VariantMessage(text, value, rest))
                         == text + Variant.Prefix() + HIDDEN + HideValues(rest))
       <==> NoBacktick(value)
  {
    hide HideValues, VariantMessage, Kind.Prefix, HIDDEN, Plain;
    if NoBacktick(value) {
      forall rest ensures HideValues(VariantMessage(text, value, rest))
                       == text + Variant.Prefix() + HIDDEN + HideValues(rest) {
        VariantIsHiddenToBacktick(text, value, rest);
      }
    } else {
      var a, b := AtBacktick(value);
      VariantShowsBehindBacktick(text, a, b, "");
      HideValuesOfNone();
      HideValuesOfSome(b + ("`" + ""));
    }
  }

  lemma AtBacktick(value: string) returns (a: string, b: string)
    requires !NoBacktick(value)
    ensures value == a + ("`" + b) && NoBacktick(a)
  {
    var n := IndexOf(value, '`');
    a, b := value[..n], value[n + 1..];
  }

  lemma HideValuesOfNone()
    ensures HideValues("") == ""
  {
    hide HideValues;
    assert Next("").None?;
    HideValuesLast("");
  }

  lemma HideValuesOfSome(s: string)
    requires s != ""
    ensures HideValues(s) != ""
  {
    hide HideValues;
    var next := Next(s);
    if next.None? {
      HideValuesLast(s);
    } else {
      var (at, kind) := next.value;
      HideValuesStep(s, at, kind);
    }
  }

  // ---------------------------------------------------------------------
  // Text that every pass goes by
  // ---------------------------------------------------------------------

  /** The end of the text is no inside of a marker. */
  predicate Sealed(a: string) {
    a != "" && (IsQuote(a[|a| - 1]) || a[|a| - 1] == ')')
  }

  lemma OccursBehind(a: string, r: string, q: string, i: int)
    requires Marker(q) && Sealed(a) && Free(a, q)
    ensures OccursAt(a + r, q, |a| + i) <==> OccursAt(r, q, i)
  {
    if OccursAt(a + r, q, |a| + i) { NoneAcross(a, r, q, |a| + i); }
    OccursIn(a, r, q, i);
  }

  lemma PassFinds(a: string, r: string, p: string)
    requires Marker(p) && Sealed(a) && Free(a, p)
    ensures Find(a + r, p) == match Find(r, p) case None => None case Some(at) => Some(|a| + at)
  {
    hide OccursAt, Marker, Sealed, Free;
    forall i ensures OccursAt(a + r, p, i) <==> OccursAt(r, p, i - |a|) {
      OccursBehind(a, r, p, i - |a|);
    }
    OccursFrom(r, p);
    match Find(r, p)
    case None => NotFound(a + r, p);
    case Some(at) => FoundAt(a + r, p, |a| + at);
  }

  lemma OccursFrom(r: string, p: string)
    ensures forall i | i < 0 :: !OccursAt(r, p, i)
  {}

  lemma NotFound(s: string, p: string)
    requires forall i :: !OccursAt(s, p, i)
    ensures Find(s, p).None?
  {}

  lemma PassSkips(a: string, r: string, p: string, keepKeys: bool)
    requires Marker(p) && Sealed(a) && Free(a, p)
    ensures HideBackticked(a + r, p, keepKeys) == a + HideBackticked(r, p, keepKeys)
  {
    PassFinds(a, r, p);
    MarkerIsText(p);
    hide HideBackticked, FindFrom, OccursAt, Free, Sealed, Marker;
    match Find(r, p)
    case None =>
      HideBacktickedLast(r, p, keepKeys);
      HideBacktickedLast(a + r, p, keepKeys);
    case Some(at) => StepBehind(a, r, p, keepKeys, at);
  }

  lemma StepBehind(a: string, r: string, p: string, keepKeys: bool, at: nat)
    requires p != "" && Find(r, p) == Some(at) && Find(a + r, p) == Some(|a| + at)
    ensures HideBackticked(a + r, p, keepKeys) == a + HideBackticked(r, p, keepKeys)
  {
    hide HideBackticked, FindFrom, OccursAt, Shown, AfterQuoted;
    var s, from := a + r, at + |p|;
    StepFrom(r, p, keepKeys, at, from);
    StepFrom(s, p, keepKeys, |a| + at, |a| + from);
    ShownBehind(a, r, from, keepKeys);
    AppendAssociates(a, Shown(r, from, keepKeys), HideBackticked(AfterQuoted(r, from), p, keepKeys));
  }

  lemma StepFrom(s: string, p: string, keepKeys: bool, at: nat, from: nat)
    requires p != "" && Find(s, p) == Some(at) && from == at + |p|
    ensures from <= |s|
    ensures HideBackticked(s, p, keepKeys)
         == Shown(s, from, keepKeys) + HideBackticked(AfterQuoted(s, from), p, keepKeys)
  {
    hide HideBackticked, FindFrom, OccursAt, Shown, AfterQuoted;
    FoundEnds(s, p, at);
    HideBacktickedStep(s, p, keepKeys, at);
  }

  lemma FoundEnds(r: string, p: string, at: nat)
    requires Find(r, p) == Some(at)
    ensures at + |p| <= |r|
  {}

  lemma AppendAssociates(a: string, b: string, c: string)
    ensures (a + b) + c == a + (b + c)
  {}

  lemma ShownBehind(a: string, r: string, from: nat, keepKeys: bool)
    requires 0 < from <= |r|
    ensures Shown(a + r, |a| + from, keepKeys) == a + Shown(r, from, keepKeys)
    ensures AfterQuoted(a + r, |a| + from) == AfterQuoted(r, from)
  {
    QuotedBehind(a, r, from);
    hide IsBareKey, HIDDEN, Quoted, AfterQuoted;
    assert (a + r)[..|a| + from] == a + r[..from] && (a + r)[..|a| + from - 1] == a + r[..from - 1];
    Regroup3(a, r[..from], Quoted(r, from), "`");
    AppendAssociates(a, r[..from - 1], HIDDEN);
  }

  lemma Regroup3(a: string, b: string, c: string, d: string)
    ensures (a + b) + c + d == a + (b + c + d)
  {}

  lemma QuotedBehind(a: string, r: string, from: nat)
    requires from <= |r|
    ensures Quoted(a + r, |a| + from) == Quoted(r, from)
    ensures AfterQuoted(a + r, |a| + from) == AfterQuoted(r, from)
  {
    hide IndexOf;
    var s, n := a + r, IndexOf(r[from..], '`');
    assert s[|a| + from..] == r[from..];
    assert s[|a| + from..|a| + from + n] == r[from..from + n];
    if from + n < |r| { assert s[|a| + from + n + 1..] == r[from + n + 1..]; }
  }

  lemma ValuesSkip(a: string, r: string)
    requires Sealed(a) && Plain(a)
    ensures HideValues(a + r) == a + HideValues(r)
  {
    var s := a + r;
    MarkersAre();
    hide HideValues, Next, EndOf, Sealed, Kind.Trigger, HIDDEN, Kind.Prefix, Marker, OccursAt;
    forall k: Kind, i ensures OccursAt(s, k.Trigger(), i) <==> OccursAt(r, k.Trigger(), i - |a|) {
      OccursBehind(a, r, k.Trigger(), i - |a|);
    }
    forall k: Kind ensures forall i | i < 0 :: !OccursAt(r, k.Trigger(), i) {
      OccursFrom(r, k.Trigger());
    }
    var next := Next(r);
    if next.None? {
      HideValuesLast(r);
      NextNone(s);
      HideValuesLast(s);
    } else {
      var (at, kind) := next.value;
      forall k: Kind | OccursAt(r, k.Trigger(), at) ensures k == kind {
        OneTriggerAt(r, at, k, kind);
      }
      NextIs(s, |a| + at, kind);
      HideValuesStep(r, at, kind);
      HideValuesStep(s, |a| + at, kind);
      OccursLength(r, kind.Trigger(), at);
      AfterBehind(a, r, at, kind);
      Regroup4(a, r[..at], kind.Prefix(), HIDDEN, HideValues(AfterValue(r, at, kind)));
    }
  }

  lemma NextNone(s: string)
    requires forall k: Kind, i :: !OccursAt(s, k.Trigger(), i)
    ensures Next(s).None?
  {}

  lemma OneTriggerAt(s: string, at: nat, k: Kind, l: Kind)
    requires OccursAt(s, k.Trigger(), at) && OccursAt(s, l.Trigger(), at)
    ensures k == l
  {
    OccursChar(s, k.Trigger(), at, 0);
    OccursChar(s, l.Trigger(), at, 0);
  }

  lemma AfterBehind(a: string, r: string, at: nat, kind: Kind)
    requires OccursAt(r, kind.Trigger(), at) && OccursAt(a + r, kind.Trigger(), |a| + at)
    ensures AfterValue(a + r, |a| + at, kind) == AfterValue(r, at, kind)
    ensures (a + r)[..|a| + at] == a + r[..at]
  {
    hide EndOf, Kind.Trigger, OccursAt;
    var n := |kind.Trigger()|;
    OccursLength(r, kind.Trigger(), at);
    SplitBehind(a, r, at);
    SplitBehind(a, r, at + n);
  }

  lemma SplitBehind(a: string, r: string, k: nat)
    requires k <= |r|
    ensures (a + r)[|a| + k..] == r[k..] && (a + r)[..|a| + k] == a + r[..k]
  {}

  lemma Regroup4(a: string, b: string, c: string, d: string, e: string)
    ensures (a + b) + c + d + e == a + (b + c + d + e)
  {}

  /** The four later passes. */
  function Later(s: string): string {
    var b := HideBackticked(s, INTEGER, false);
    var c := HideBackticked(b, FLOAT, false);
    var d := HideBackticked(c, FIELD, true);
    HideBackticked(d, DUPLICATE, true)
  }

  lemma RedactIsLater(message: string)
    ensures Redact(message) == Later(HideValues(message))
  {}

  lemma LaterSkips(a: string, r: string)
    requires Sealed(a) && Free(a, INTEGER) && Free(a, FLOAT) && Free(a, FIELD) && Free(a, DUPLICATE)
    ensures Later(a + r) == a + Later(r)
  {
    MarkersAre();
    hide HideBackticked, Sealed, Free, Marker;
    PassSkips(a, r, INTEGER, false);
    var b := HideBackticked(r, INTEGER, false);
    PassSkips(a, b, FLOAT, false);
    var c := HideBackticked(b, FLOAT, false);
    PassSkips(a, c, FIELD, true);
    PassSkips(a, HideBackticked(c, FIELD, true), DUPLICATE, true);
  }

  /** In a text whose one quote is its last character, behind no space, no pass
      finds anything. */
  lemma OneQuoteIsFree(s: string, q: string)
    requires Marker(q)
    requires |s| >= 2 && NoQuote(s[..|s| - 1]) && s[|s| - 2] != ' '
    ensures Free(s, q)
  {
    forall j | 0 <= j < |s| - 1 ensures !IsQuote(s[j]) {
      assert s[..|s| - 1][j] == s[j];
    }
    hide OccursAt;
    forall i | OccursAt(s, q, i) ensures false {
      OccursQuote(s, q, i);
    }
  }

  lemma OccursQuote(s: string, q: string, i: int)
    requires Marker(q) && OccursAt(s, q, i)
    ensures 0 < i + |q| - 1 < |s| && s[i + |q| - 1] == q[|q| - 1] && IsQuote(s[i + |q| - 1])
    ensures s[i + |q| - 2] == ' '
  {
    OccursChar(s, q, i, |q| - 1);
    OccursChar(s, q, i, |q| - 2);
  }

  lemma Ends(a: string, c: char)
    ensures (a + [c])[..|a + [c]| - 1] == a
  {}

  // ---------------------------------------------------------------------
  // A variant with a backtick in it
  // ---------------------------------------------------------------------

  /** The end of a value that is shown if a pass gets to it. */
  predicate Remainder(b: string) {
    b != "" && NoQuote(b) && b[|b| - 1] != ' '
  }

  /** What stands behind a backtick in a variant is shown, whatever serde says
      next, ... */
  lemma VariantCanShow(text: string, a: string, b: string, rest: string)
    requires NoQuote(text) && NoBacktick(a) && Remainder(b)
    ensures Redact(VariantMessage(text, a + ("`" + b), rest))
         == text + Variant.Prefix() + HIDDEN + b + "`" + Redact(rest)
  {
    var front := text + Variant.Prefix() + HIDDEN;
    var more := b + "`";
    MarkersAre();
    hide HideValues, HideBackticked, VariantMessage, Kind.Trigger, Kind.Prefix, HIDDEN, Marker;
    forall q: string | Marker(q) ensures Free(more, q) && Free(front + more, q) && Free(text, q) {
      Ends(b, '`');
      OneQuoteIsFree(more, q);
      Ends(front + b, '`');
      OneQuoteIsFree(front + b + "`", q);
      assert front + b + "`" == front + more;
      NoQuoteIsFree(text, q);
    }
    VariantShowsBehindBacktick(text, a, b, rest);
    assert b + ("`" + rest) == more + rest;
    ValuesSkip(more, rest);
    RedactIsLater(VariantMessage(text, a + ("`" + b), rest));
    RedactIsLater(rest);
    AppendAssociates(front, more, HideValues(rest));
    LaterSkips(front + more, HideValues(rest));
    AppendAssociates(front, b, "`");
  }

  lemma NoQuoteIsFree(s: string, q: string)
    requires NoQuote(s) && Marker(q)
    ensures Free(s, q)
  {
    hide OccursAt;
    forall i | OccursAt(s, q, i) ensures false {
      OccursQuote(s, q, i);
    }
  }

  /** The end of serde's message is one that is shown. */
  const EXPECTED := ", expected one of " + "`a`, `b`"

  lemma ExpectedIsShown()
    ensures Redact(EXPECTED) == EXPECTED
  {
    JoinedWords(", expected one of ", "`a`, `b`");
    hide EXPECTED, Redact;
    OtherWordsAreShown(EXPECTED);
  }

  /** No marker's word ends with an `f` or a comma. */
  predicate OtherWords(s: string) {
    forall i | 2 <= i < |s| && IsQuote(s[i]) && s[i - 1] == ' ' :: s[i - 2] == 'f' || s[i - 2] == ','
  }

  lemma OtherWordsAreShown(s: string)
    requires OtherWords(s)
    ensures Redact(s) == s
  {
    MarkersAre();
    MarkerTails();
    forall k: Kind ensures Free(s, k.Trigger()) { OtherWordsAreFree(s, k.Trigger()); }
    OtherWordsAreFree(s, INTEGER);
    OtherWordsAreFree(s, FLOAT);
    OtherWordsAreFree(s, FIELD);
    OtherWordsAreFree(s, DUPLICATE);
    hide *;
    FreeIsOnlyKeys(s, FIELD);
    FreeIsOnlyKeys(s, DUPLICATE);
    RedactIsIdleExactWhen(s);
  }

  lemma FreeIsOnlyKeys(s: string, q: string)
    requires Free(s, q)
    ensures OnlyKeys(s, q)
  {}

  lemma OtherWordsAreFree(s: string, q: string)
    requires OtherWords(s) && Marker(q) && q[|q| - 3] != 'f' && q[|q| - 3] != ','
    ensures Free(s, q)
  {
    hide OccursAt;
    forall i | OccursAt(s, q, i) ensures false { OccursThird(s, q, i); }
  }

  lemma JoinedWords(front: string, tail: string)
    requires NoQuote(front) && |front| >= 2 && front[|front| - 2] == 'f'
    requires OtherWords(tail) && |tail| >= 2 && !IsQuote(tail[1])
    ensures OtherWords(front + tail)
  {
    var s := front + tail;
    forall i | 2 <= i < |s| && IsQuote(s[i]) && s[i - 1] == ' ' ensures s[i - 2] == 'f' || s[i - 2] == ',' {
      if i >= |front| + 2 { assert s[i] == tail[i - |front|] && s[i - 1] == tail[i - |front| - 1]; }
    }
  }

  lemma OccursThird(s: string, q: string, i: int)
    requires Marker(q) && OccursAt(s, q, i)
    ensures var n := i + |q| - 1; 2 <= n < |s| && IsQuote(s[n]) && s[n - 1] == ' ' && s[n - 2] == q[|q| - 3]
  {
    OccursQuote(s, q, i);
    OccursChar(s, q, i, |q| - 3);
  }

  /** So with a list of the variants there are behind it. */
  lemma VariantShownBeforeList(b: string)
    requires Remainder(b)
    ensures Redact(VariantMessage("", "a`" + b, EXPECTED))
         == "unknown variant (value not shown)" + b + "`" + EXPECTED
  {
    ExpectedIsShown();
    hide Redact, VariantMessage, EXPECTED, Kind.Prefix, HIDDEN;
    var front, value := "unknown variant (value not shown)", "a`" + b;
    FrontIs(front);
    ValueIs("a", "`", b, value);
    VariantCanShow("", "a", b, EXPECTED);
  }

  lemma FrontIs(front: string)
    requires front == "unknown variant (value not shown)"
    ensures front == "" + Variant.Prefix() + HIDDEN
  {}

  lemma ValueIs(a: string, tick: string, b: string, value: string)
    requires a == "a" && tick == "`" && value == "a`" + b
    ensures a + (tick + b) == value
  {}

  /** ... so messages that differ only in such a variant redact differently. */
  lemma VariantsCanDiffer(text: string, a: string, b: string, c: string, rest: string)
    requires NoQuote(text) && NoBacktick(a) && Remainder(b) && Remainder(c)
    ensures Redact(VariantMessage(text, a + ("`" + b), rest)) == Redact(VariantMessage(text, a + ("`" + c), rest))
       <==> b == c
  {
    hide Redact, VariantMessage, HIDDEN, NoQuote;
    VariantCanShow(text, a, b, rest);
    VariantCanShow(text, a, c, rest);
    SameMiddle(text + Variant.Prefix() + HIDDEN, b, c, "`", Redact(rest));
  }

  lemma SameMiddle(front: string, b: string, c: string, close: string, rest: string)
    ensures front + b + close + rest == front + c + close + rest ==> b == c
  {
    var s, t := front + b + close + rest, front + c + close + rest;
    if s == t {
      assert |b| == |c|;
      assert s[|front|..|front| + |b|] == b && t[|front|..|front| + |c|] == c;
    }
  }

  // ---------------------------------------------------------------------
  // Numbers
  // ---------------------------------------------------------------------

  predicate EndsWith(s: string, end: string) {
    |end| <= |s| && s[|s| - |end|..] == end
  }

  predicate IsHiddenBy(front: string, quoted: string, p: string, keepKeys: bool)
    requires p != ""
  {
    EndsWith(front, p[..|p| - 1]) && !Kept(keepKeys, quoted)
  }

  /** The words before a backtick that get the quoted text hidden. */
  predicate Hides(front: string, quoted: string) {
    || EndsWith(front, "unknown variant ")
    || EndsWith(front, "integer ") || EndsWith(front, "float ")
    || ((EndsWith(front, "unknown field ") || EndsWith(front, "duplicate key ")) && !IsBareKey(quoted))
  }

  /** A text in backticks, as printed or hidden. */
  function Ticked(front: string, quoted: string, hidden: bool): string {
    if hidden then front + HIDDEN else front + "`" + quoted + "`"
  }

  /** A message with a text in backticks. */
  function TickedMessage(front: string, quoted: string, rest: string): string {
    Ticked(front, quoted, false) + rest
  }

  lemma TickedIsFree(front: string, quoted: string, hidden: bool, q: string)
    requires Marker(q) && NoQuote(front) && Remainder(quoted)
    requires hidden || q[|q| - 1] != '`' || !EndsWith(front, q[..|q| - 1])
    ensures Free(Ticked(front, quoted, hidden), q) && Sealed(Ticked(front, quoted, hidden))
  {
    if hidden {
      MarkersAre();
      NoQuoteIsFree(front + HIDDEN, q);
    } else {
      ShownIsFree(front, quoted, q);
    }
  }

  lemma ShownIsFree(front: string, quoted: string, q: string)
    requires Marker(q) && NoQuote(front) && Remainder(quoted)
    requires q[|q| - 1] != '`' || !EndsWith(front, q[..|q| - 1])
    ensures Free(front + "`" + quoted + "`", q)
  {
    var s := front + "`" + quoted + "`";
    hide OccursAt, EndsWith;
    assert s == front + ("`" + quoted + "`");
    forall i | OccursAt(s, q, i) ensures false {
      OccursQuote(s, q, i);
      TickedQuotes(front, quoted, i + |q| - 1);
      OccursBefore(front, "`" + quoted + "`", q, i);
    }
  }

  /** The first backtick is the only quote behind which a marker can end. */
  lemma TickedQuotes(front: string, quoted: string, i: nat)
    requires NoQuote(front) && Remainder(quoted)
    requires var s := front + "`" + quoted + "`"; 0 < i < |s| && IsQuote(s[i]) && s[i - 1] == ' '
    ensures i == |front| && (front + "`" + quoted + "`")[i] == '`'
  {
    var s := front + "`" + quoted + "`";
    assert forall j | 0 <= j < |front| :: s[j] == front[j];
    assert forall j | 0 <= j < |quoted| :: s[|front| + 1 + j] == quoted[j];
  }

  lemma OccursBefore(front: string, tail: string, q: string, i: int)
    requires OccursAt(front + tail, q, i) && q != "" && i + |q| - 1 == |front|
    ensures EndsWith(front, q[..|q| - 1])
  {
    assert front[i..] == (front + tail)[i..i + |q|][..|q| - 1];
  }

  lemma AtMarker(front: string, p: string) returns (text: string)
    requires Marker(p) && p[|p| - 1] == '`' && NoQuote(front) && EndsWith(front, p[..|p| - 1])
    ensures front == text + p[..|p| - 1] && NoQuote(text) && Free(text, p)
    ensures front + "`" == text + p
  {
    text := front[..|front| - (|p| - 1)];
    assert p == p[..|p| - 1] + "`";
    NoQuoteIsFree(text, p);
  }

  lemma PassTicked(front: string, quoted: string, hidden: bool, rest: string, p: string, keepKeys: bool)
    requires Marker(p) && p[|p| - 1] == '`' && NoQuote(front) && Remainder(quoted)
    ensures HideBackticked(Ticked(front, quoted, hidden) + rest, p, keepKeys)
         == Ticked(front, quoted, hidden || IsHiddenBy(front, quoted, p, keepKeys)) + HideBackticked(rest, p, keepKeys)
  {
    hide HideBackticked, HIDDEN, IsBareKey, NoBacktick;
    if hidden || !EndsWith(front, p[..|p| - 1]) {
      TickedIsFree(front, quoted, hidden, p);
      PassSkips(Ticked(front, quoted, hidden), rest, p, keepKeys);
    } else {
      var text := AtMarker(front, p);
      RemainderHasNone(quoted);
      QuotedIsShownToBacktick(text, p, keepKeys, quoted, rest);
      assert Ticked(front, quoted, false) + rest == QuotedMessage(text, p, quoted, rest);
    }
  }

  lemma RemainderHasNone(b: string)
    requires NoQuote(b)
    ensures NoBacktick(b)
  {}

  lemma ValuesTicked(front: string, quoted: string, rest: string)
    requires NoQuote(front) && Remainder(quoted)
    ensures HideValues(TickedMessage(front, quoted, rest))
         == Ticked(front, quoted, EndsWith(front, "unknown variant ")) + HideValues(rest)
  {
    MarkersAre();
    TriggerWords();
    hide HideValues, HIDDEN, NoBacktick, Kind.Trigger, Kind.Prefix;
    var q := Variant.Trigger();
    if EndsWith(front, "unknown variant ") {
      var text := AtMarker(front, q);
      RemainderHasNone(quoted);
      forall k: Kind ensures Free(text, k.Trigger()) { NoQuoteIsFree(text, k.Trigger()); }
      VariantIsHiddenToBacktick(text, quoted, rest);
      assert TickedMessage(front, quoted, rest) == VariantMessage(text, quoted, rest);
    } else {
      TickedIsFree(front, quoted, false, StringValue.Trigger());
      TickedIsFree(front, quoted, false, q);
      forall k: Kind ensures Free(Ticked(front, quoted, false), k.Trigger()) {
        if k.Variant? { assert k == Variant; } else { assert k == StringValue; }
      }
      ValuesSkip(Ticked(front, quoted, false), rest);
    }
  }

  lemma TriggerWords()
    ensures var q := Variant.Trigger();
      q[..|q| - 1] == Variant.Prefix() == "unknown variant " && q[|q| - 1] == '`'
    ensures var q := StringValue.Trigger(); q[|q| - 1] == '"'
    ensures INTEGER[..|INTEGER| - 1] == "integer " && FLOAT[..|FLOAT| - 1] == "float "
    ensures FIELD[..|FIELD| - 1] == "unknown field " && DUPLICATE[..|DUPLICATE| - 1] == "duplicate key "
  {}

  /** Of a plain text in backticks, exactly the words before it decide whether it
      is hidden; the rest of the message is redacted for itself. */
  lemma TickedIsHiddenByWords(front: string, quoted: string, rest: string)
    requires NoQuote(front) && Remainder(quoted)
    ensures Redact(TickedMessage(front, quoted, rest))
         == Ticked(front, quoted, Hides(front, quoted)) + Redact(rest)
  {
    MarkersAre();
    TriggerWords();
    hide HideValues, HideBackticked, Ticked, EndsWith, NoQuote, Marker, IsBareKey, Kind.Trigger, Remainder;
    ValuesTicked(front, quoted, rest);
    var h := EndsWith(front, "unknown variant ");
    var a := HideValues(rest);
    PassTicked(front, quoted, h, a, INTEGER, false);
    h := h || EndsWith(front, "integer ");
    var b := HideBackticked(a, INTEGER, false);
    PassTicked(front, quoted, h, b, FLOAT, false);
    h := h || EndsWith(front, "float ");
    var c := HideBackticked(b, FLOAT, false);
    PassTicked(front, quoted, h, c, FIELD, true);
    h := h || (EndsWith(front, "unknown field ") && !IsBareKey(quoted));
    PassTicked(front, quoted, h, HideBackticked(c, FIELD, true), DUPLICATE, true);
  }

  /** A number is hidden exactly behind those words, and shown as printed behind
      any others. */
  lemma NumberIsHiddenExactWhen(front: string, number: string, rest: string)
    requires NoQuote(front) && Remainder(number)
    ensures Redact(TickedMessage(front, number, rest)) == Ticked(front, number, true) + Redact(rest)
       <==> Hides(front, number)
    ensures Redact(TickedMessage(front, number, rest)) == TickedMessage(front, number, Redact(rest))
       <==> !Hides(front, number)
  {
    hide Redact, Hides, Remainder, NoQuote;
    TickedIsHiddenByWords(front, number, rest);
    var shown, hidden := Ticked(front, number, false) + Redact(rest), Ticked(front, number, true) + Redact(rest);
    assert shown[|front|] == '`' && hidden[|front|] == '(';
  }

  /** serde's words for a number that is no integer are others. */
  const FLOATING := "invalid type: floating point "

  lemma FloatingHidesNothing(number: string)
    ensures NoQuote(FLOATING) && !Hides(FLOATING, number)
  {
    FloatingWords(FLOATING);
    hide FLOATING, EndsWith;
    EndsOtherwise(FLOATING, "unknown variant ", 3);
    EndsOtherwise(FLOATING, "integer ", 1);
    EndsOtherwise(FLOATING, "float ", 2);
    EndsOtherwise(FLOATING, "unknown field ", 1);
    EndsOtherwise(FLOATING, "duplicate key ", 1);
  }

  lemma FloatingWords(s: string)
    requires s == FLOATING
    ensures |s| > 4 && s[|s| - 2] == 't' && s[|s| - 3] == 'n' && s[|s| - 4] == 'i' && NoQuote(s)
  {}

  lemma EndsOtherwise(s: string, end: string, k: nat)
    requires k < |s| && k < |end| && s[|s| - 1 - k] != end[|end| - 1 - k]
    ensures !EndsWith(s, end)
  {
    assert |end| <= |s| ==> s[|s| - |end|..][|end| - 1 - k] == s[|s| - 1 - k];
  }

  /** So such a number is shown, ... */
  lemma FloatIsShown(number: string, rest: string)
    requires Remainder(number)
    ensures Redact(TickedMessage(FLOATING, number, rest)) == TickedMessage(FLOATING, number, Redact(rest))
    ensures NoQuote(rest) ==> Redact(TickedMessage(FLOATING, number, rest)) == TickedMessage(FLOATING, number, rest)
  {
    hide Redact, FLOATING, Hides, Remainder, TickedMessage;
    FloatingHidesNothing(number);
    NumberIsHiddenExactWhen(FLOATING, number, rest);
    if NoQuote(rest) { NoQuoteIsIdle(rest); }
  }

  lemma NoQuoteIsIdle(s: string)
    requires NoQuote(s)
    ensures Redact(s) == s
  {
    MarkersAre();
    hide Redact, NoQuote, Marker, Kind.Trigger;
    forall q: string | Marker(q) ensures Free(s, q) { NoQuoteIsFree(s, q); }
    RedactIsIdleExactWhen(s);
  }

  /** ... and messages that differ only in it redact differently. */
  lemma FloatsDiffer(x: string, y: string, rest: string)
    requires Remainder(x) && Remainder(y)
    ensures Redact(TickedMessage(FLOATING, x, rest)) == Redact(TickedMessage(FLOATING, y, rest)) <==> x == y
  {
    FloatIsShown(x, rest);
    FloatIsShown(y, rest);
    hide Redact, FLOATING, Remainder, NoQuote;
    SameMiddle(FLOATING + "`", x, y, "`", Redact(rest));
  }

  // ---------------------------------------------------------------------
  // The later passes
  // ---------------------------------------------------------------------

  /** What a pass should write for a quoted text. */
  function ShownAs(text: string, p: string, quoted: string, keepKeys: bool): string
    requires p != ""
  {
    if Kept(keepKeys, quoted) then text + p + quoted + "`" else text + p[..|p| - 1] + HIDDEN
  }

  lemma QuotedIsShownToBacktick(text: string, p: string, keepKeys: bool, a: string, rest: string)
    requires Marker(p) && Free(text, p) && NoBacktick(a)
    ensures HideBackticked(QuotedMessage(text, p, a, rest), p, keepKeys)
         == ShownAs(text, p, a, keepKeys) + HideBackticked(rest, p, keepKeys)
  {
    hide HideBackticked, FindFrom, Quoted, AfterQuoted, IsBareKey, OccursAt, Marker, Free;
    MarkerIsText(p);
    var s := QuotedMessage(text, p, a, rest);
    FirstMarker(text, p, a + ("`" + rest));
    HideBacktickedStep(s, p, keepKeys, |text|);
    QuotedIsRead(text + p, a, rest);
    FrontCut(s, text, p);
  }

  lemma QuotedShowsBehindBacktick(text: string, p: string, keepKeys: bool, a: string, b: string, rest: string)
    requires Marker(p) && Free(text, p) && NoBacktick(a)
    ensures HideBackticked(QuotedMessage(text, p, a + ("`" + b), rest), p, keepKeys)
         == ShownAs(text, p, a, keepKeys) + HideBackticked(b + ("`" + rest), p, keepKeys)
  {
    var more := b + ("`" + rest);
    RegroupQuoted(a, b, rest);
    hide HideBackticked, ShownAs, NoBacktick, Free, Marker, OccursAt;
    QuotedIsShownToBacktick(text, p, keepKeys, a, more);
  }

  /** A pass treats a quoted text as a whole, before every continuation, exactly
      when it holds no backtick: a longer name whose beginning is a plain key is
      shown. */
  lemma QuotedIsWholeExactWhen(text: string, p: string, keepKeys: bool, quoted: string)
    requires Marker(p) && Free(text, p)
    ensures (forall rest :: HideBackticked(QuotedMessage(text, p, quoted, rest), p, keepKeys)
                         == ShownAs(text, p, quoted, keepKeys) + HideBackticked(rest, p, keepKeys))
       <==> NoBacktick(quoted)
  {
    hide HideBackticked, QuotedMessage, HIDDEN, Free, IsBareKey;
    if NoBacktick(quoted) {
      forall rest ensures HideBackticked(QuotedMessage(text, p, quoted, rest), p, keepKeys)
                       == ShownAs(text, p, quoted, keepKeys) + HideBackticked(rest, p, keepKeys) {
        QuotedIsShownToBacktick(text, p, keepKeys, quoted, rest);
      }
    } else {
      var a, b := AtBacktick(quoted);
      QuotedShowsBehindBacktick(text, p, keepKeys, a, b, "");
      HideBacktickedOf("", p, keepKeys);
      HideBacktickedOf(b + ("`" + ""), p, keepKeys);
      BacktickIsNoKey(quoted);
      if Kept(keepKeys, a) {
        KeptOrHiddenDiffer(text, p, a, HideBackticked(b + ("`" + ""), p, keepKeys));
      }
    }
  }

  lemma BacktickIsNoKey(s: string)
    requires !NoBacktick(s)
    ensures !IsBareKey(s)
  {}

  lemma HideBacktickedOf(s: string, p: string, keepKeys: bool)
    requires p != ""
    ensures HideBackticked(s, p, keepKeys) == "" <==> s == ""
  {
    hide HideBackticked, Quoted, AfterQuoted;
    var found := Find(s, p);
    if found.None? {
      HideBacktickedLast(s, p, keepKeys);
    } else {
      HideBacktickedStep(s, p, keepKeys, found.value);
    }
  }

  /** The shown form has a quote where the hidden one has a parenthesis. */
  lemma KeptOrHiddenDiffer(text: string, p: string, a: string, more: string)
    requires Marker(p)
    ensures text + p + a + "`" + more != text + p[..|p| - 1] + HIDDEN
  {
    var n := |text| + |p| - 1;
    assert (text + p + a + "`" + more)[n] == p[|p| - 1];
    assert (text + p[..|p| - 1] + HIDDEN)[n] == '(';
  }

  /** A name that is no key is shown, since it begins like one. */
  lemma KeyCanShow(a: string, b: string, rest: string)
    requires IsBareKey(a) && Remainder(b)
    ensures !IsBareKey(a + ("`" + b))
    ensures Redact(QuotedMessage("", FIELD, a + ("`" + b), rest))
         == QuotedMessage("", FIELD, a + ("`" + b), Redact(rest))
  {
    var s := FIELD + a + "`" + b + "`";
    assert (a + ("`" + b))[|a|] == '`';
    MarkersAre();
    KeyMessageFree(a, b);
    hide HideValues, HideBackticked, FIELD, Kind.Trigger, Marker;
    forall r: string ensures QuotedMessage("", FIELD, a + ("`" + b), r) == s + r {
      KeyRegroup(FIELD, a, b, r);
    }
    hide QuotedMessage;
    var v := HideValues(rest);
    ValuesSkip(s, rest);
    PassSkips(s, v, INTEGER, false);
    var i := HideBackticked(v, INTEGER, false);
    PassSkips(s, i, FLOAT, false);
    var f := HideBackticked(i, FLOAT, false);
    KeyPass(a, b, f);
    PassSkips(s, HideBackticked(f, FIELD, true), DUPLICATE, true);
  }

  lemma KeyRegroup(p: string, a: string, b: string, r: string)
    ensures QuotedMessage("", p, a + ("`" + b), r) == p + a + "`" + b + "`" + r
  {
    assert "" + p == p;
  }

  lemma KeyPass(a: string, b: string, r: string)
    requires IsBareKey(a) && Remainder(b)
    ensures HideBackticked(FIELD + a + "`" + b + "`" + r, FIELD, true)
         == FIELD + a + "`" + b + "`" + HideBackticked(r, FIELD, true)
  {
    MarkersAre();
    KeyIsText(a);
    RemainderHasNone(a);
    NoQuoteIsFree("", FIELD);
    hide HideBackticked, FIELD, NoBacktick, Marker, IsBareKey;
    Ends(b, '`');
    OneQuoteIsFree(b + "`", FIELD);
    PassSkips(b + "`", r, FIELD, true);
    QuotedShowsBehindBacktick("", FIELD, true, a, b, r);
    KeyRegroup(FIELD, a, b, r);
    AppendAssociates(b, "`", r);
    NothingBefore(FIELD);
    hide QuotedMessage, NoQuote, Remainder, Free, Sealed;
    AppendAssociates(FIELD + a + "`", b + "`", HideBackticked(r, FIELD, true));
    AppendAssociates(FIELD + a + "`", b, "`");
  }

  lemma NothingBefore(p: string)
    ensures "" + p == p
  {}

  lemma KeyMessageFree(a: string, b: string)
    requires IsBareKey(a) && Remainder(b)
    ensures var s := FIELD + a + "`" + b + "`";
      && Sealed(s) && Plain(s) && Free(s, INTEGER) && Free(s, FLOAT) && Free(s, DUPLICATE)
  {
    MarkersAre();
    MarkerTails();
    var s := FIELD + a + "`" + b + "`";
    forall q: string, i | Marker(q) && OccursAt(s, q, i) ensures q[|q| - 3] == 'd' {
      KeyMessageMarker(a, b, q, i);
    }
  }

  lemma MarkerTails()
    ensures forall k: Kind :: var q := k.Trigger(); q[|q| - 3] != 'd' && q[|q| - 3] != 'f' && q[|q| - 3] != ','
    ensures forall q | q == INTEGER || q == FLOAT || q == DUPLICATE ::
              q[|q| - 3] != 'd' && q[|q| - 3] != 'f' && q[|q| - 3] != ','
    ensures FIELD[|FIELD| - 3] == 'd'
  {
    assert StringValue.Trigger() == "string \"" && Variant.Trigger() == "unknown variant `";
  }

  lemma KeyIsText(a: string)
    requires IsBareKey(a)
    ensures a != "" && NoQuote(a) && a[|a| - 1] != ' '
  {
    assert forall i | 0 <= i < |a| :: IsKeyChar(a[i]);
  }

  /** The only marker in such a message is the pass's own. */
  lemma KeyMessageMarker(a: string, b: string, q: string, i: int)
    requires IsBareKey(a) && Remainder(b)
    requires Marker(q) && OccursAt(FIELD + a + "`" + b + "`", q, i)
    ensures q[|q| - 3] == 'd'
  {
    var s := FIELD + a + "`" + b + "`";
    KeyIsText(a);
    FieldEnd();
    hide IsBareKey, OccursAt;
    OccursThird(s, q, i);
    KeyMessageQuotes(FIELD, a, b, i + |q| - 1);
  }

  lemma FieldEnd()
    ensures |FIELD| >= 3 && FIELD[|FIELD| - 3] == 'd' && NoQuote(FIELD[..|FIELD| - 1])
  {
    MarkersAre();
  }

  /** Only the quote that ends the front has a space before it. */
  lemma KeyMessageQuotes(front: string, a: string, b: string, i: nat)
    requires |front| >= 3 && NoQuote(front[..|front| - 1]) && Remainder(a) && Remainder(b)
    requires var s := front + a + "`" + b + "`"; 2 <= i < |s| && IsQuote(s[i]) && s[i - 1] == ' '
    ensures i == |front| - 1 && (front + a + "`" + b + "`")[i - 2] == front[|front| - 3]
  {
    var s, n := front + a + "`" + b + "`", |front|;
    assert forall j | 0 <= j < n :: s[j] == front[j];
    assert forall j | 0 <= j < |a| :: s[n + j] == a[j];
    assert s[n + |a|] == '`';
    assert forall j | 0 <= j < |b| :: s[n + |a| + 1 + j] == b[j];
    assert forall j | 0 <= j < n - 1 :: front[..n - 1][j] == front[j];
  }
}
