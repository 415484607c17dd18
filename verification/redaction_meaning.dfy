/** What redacted messages read, word for word. */
module RedactionMeaning {
  import opened Prelude
  import opened Redaction
  import opened RedactionTheorems
  import opened RedactionLimits

  lemma WordsAre()
    ensures HIDDEN == "(value not shown)"
    ensures StringValue.Trigger() == "string \"" && StringValue.Prefix() == "string "
    ensures Variant.Trigger() == "unknown variant `" && Variant.Prefix() == "unknown variant "
  {}

  // ---------------------------------------------------------------------
  // Strings
  // ---------------------------------------------------------------------

  /** A message that quotes a string the way Rust's `Debug` prints it. */
  function StringMessage(front: string, value: string, printable: char -> bool, rest: string): string {
    front + "string \"" + Escaped(value, printable) + "\"" + rest
  }

  lemma FirstStringIsHidden(front: string, value: string, printable: char -> bool, rest: string)
    requires NoQuote(front)
    ensures HideValues(StringMessage(front, value, printable, rest))
         == front + "string " + "(value not shown)" + HideValues(rest)
  {
    hide HideValues, Next, Rendered, AfterValue, Escaped, Marker, Kind.Trigger, Kind.Prefix, HIDDEN;
    MarkersAre();
    WordsAre();
    var seg := Segment(front, StringValue, value);
    forall k: Kind ensures Free(front, k.Trigger()) { NoQuoteIsFree(front, k.Trigger()); }
    hide NoQuote, Free;
    var s := Rendered(seg, printable) + rest;
    RenderedStringIs(seg, printable);
    RenderedIsHidden(seg, printable, rest);
    HideValuesStep(s, |front|, StringValue);
    RenderedBegins(seg, printable, rest);
  }

  lemma RenderedStringIs(seg: Segment, printable: char -> bool)
    requires seg.kind == StringValue
    ensures Rendered(seg, printable) == seg.text + "string \"" + Escaped(seg.value, printable) + "\""
  {
    hide Escaped;
    WordsAre();
  }

  /** A quoted string is hidden, whatever it holds and whatever follows, which is
      redacted for itself. */
  lemma StringIsHidden(front: string, value: string, printable: char -> bool, rest: string)
    requires NoQuote(front)
    ensures Redact(StringMessage(front, value, printable, rest))
         == front + "string " + "(value not shown)" + Redact(rest)
  {
    var shown := front + "string " + "(value not shown)";
    MarkersAre();
    WordsAre();
    assert NoQuote(shown);
    forall q: string | Marker(q) ensures Free(shown, q) { NoQuoteIsFree(shown, q); }
    hide HideValues, HideBackticked, StringMessage, Free, NoQuote, Marker, Kind.Trigger;
    FirstStringIsHidden(front, value, printable, rest);
    RedactIsLater(StringMessage(front, value, printable, rest));
    RedactIsLater(rest);
    LaterSkips(shown, HideValues(rest));
  }

  // ---------------------------------------------------------------------
  // Keys
  // ---------------------------------------------------------------------

  /** At most forty letters, digits, underscores and hyphens, and not none. */
  predicate LooksLikeAKey(key: string) {
    1 <= |key| <= 40 &&
    forall i | 0 <= i < |key| ::
      || 'a' <= key[i] <= 'z' || 'A' <= key[i] <= 'Z' || '0' <= key[i] <= '9'
      || key[i] == '_' || key[i] == '-'
  }

  /** A field's or key's name is shown exactly when it looks like one. */
  lemma KeyIsShownExactWhen(front: string, key: string, rest: string)
    requires NoQuote(front) && Remainder(key)
    requires EndsWith(front, "unknown field ") || EndsWith(front, "duplicate key ")
    ensures Redact(front + "`" + key + "`" + rest)
         == (if LooksLikeAKey(key) then front + "`" + key + "`" else front + "(value not shown)") + Redact(rest)
  {
    KeyEnd(front);
    WordsAre();
    hide Redact, NoQuote, Remainder, EndsWith, HIDDEN;
    TickedIsHiddenByWords(front, key, rest);
  }

  lemma KeyEnd(front: string)
    requires EndsWith(front, "unknown field ") || EndsWith(front, "duplicate key ")
    ensures !EndsWith(front, "unknown variant ") && !EndsWith(front, "integer ") && !EndsWith(front, "float ")
  {
    hide EndsWith;
    if EndsWith(front, "unknown field ") {
      EndChars(front, "unknown field ", 'd');
    } else {
      EndChars(front, "duplicate key ", 'y');
    }
    EndsOtherwise(front, "unknown variant ", 1);
    EndsOtherwise(front, "integer ", 1);
    EndsOtherwise(front, "float ", 1);
  }

  lemma EndChars(s: string, end: string, c: char)
    requires EndsWith(s, end) && |end| >= 2 && end[|end| - 2] == c
    ensures |s| >= 2 && s[|s| - 2] == c
  {
    assert s[|s| - |end|..][|end| - 2] == s[|s| - 2];
  }

  /** A pasted address is none. */
  lemma AddressIsHidden(rest: string)
    ensures Redact("unknown field " + "`" + "postgres://u:pw@h" + "`" + rest)
         == "unknown field " + "(value not shown)" + Redact(rest)
  {
    var key := "postgres://u:pw@h";
    assert key[8] == ':';
    AddressIs(key);
    hide Redact;
    KeyIsShownExactWhen("unknown field ", key, rest);
  }

  lemma AddressIs(key: string)
    requires key == "postgres://u:pw@h"
    ensures Remainder(key) && NoQuote("unknown field ") && EndsWith("unknown field ", "unknown field ")
  {}

  // ---------------------------------------------------------------------
  // The words for values
  // ---------------------------------------------------------------------

  /** Whatever plain text stands in backticks behind one of three words is hidden. */
  lemma ValueIsHidden(front: string, value: string, rest: string)
    requires NoQuote(front) && Remainder(value)
    requires EndsWith(front, "unknown variant ") || EndsWith(front, "integer ") || EndsWith(front, "float ")
    ensures Redact(front + "`" + value + "`" + rest) == front + "(value not shown)" + Redact(rest)
  {
    WordsAre();
    hide Redact, NoQuote, Remainder, EndsWith, HIDDEN, IsBareKey;
    TickedIsHiddenByWords(front, value, rest);
  }

  // ---------------------------------------------------------------------
  // Values that nothing closes
  // ---------------------------------------------------------------------

  lemma {:induction false} EndOfExtends(body: string, more: string, close: char, escaped: bool)
    requires EndOf(body, close, escaped).Some?
    ensures EndOf(body + more, close, escaped) == EndOf(body, close, escaped)
  {
    if !(body[0] == close && !escaped) {
      EndOfExtends(body[1..], more, close, close == '"' && body[0] == '\\' && !escaped);
      assert (body + more)[1..] == body[1..] + more;
    }
  }

  lemma NothingCloses(value: string, printable: char -> bool)
    ensures EndOf(Escaped(value, printable), '"', false).None?
    ensures NoBacktick(value) ==> EndOf(value, '`', false).None?
  {
    hide EndOf, Escaped;
    var v := Escaped(value, printable);
    EscapedIsConsumed(value, printable, "");
    if EndOf(v, '"', false).Some? { EndOfExtends(v, "\"" + "", '"', false); }
    if NoBacktick(value) {
      BacktickFreeIsConsumed(value, "");
      if EndOf(value, '`', false).Some? { EndOfExtends(value, "`" + "", '`', false); }
    }
  }

  lemma UnclosedValue(front: string, kind: Kind, body: string)
    requires NoQuote(front) && EndOf(body, kind.Close(), false).None?
    ensures Redact(front + kind.Trigger() + body) == front + kind.Prefix() + "(value not shown)"
  {
    MarkersAre();
    WordsAre();
    var shown := front + kind.Prefix() + "(value not shown)";
    assert NoQuote(shown);
    NoQuoteIsIdle(shown);
    forall q: string | Marker(q) ensures Free(shown, q) && Free(front, q) {
      NoQuoteIsFree(shown, q);
      NoQuoteIsFree(front, q);
    }
    hide HideValues, HideBackticked, Next, EndOf, Free, NoQuote, Marker, Kind.Trigger, Kind.Prefix;
    var s := front + kind.Trigger() + body;
    FirstTrigger(front, kind, body);
    HideValuesStep(s, |front|, kind);
    CutAtTrigger(front, kind, body);
    HideValuesOfNone();
    assert shown + "" == shown;
    RedactIsLater(s);
    RedactIsLater(shown);
    NextOfFree(shown);
    HideValuesLast(shown);
  }

  lemma NextOfFree(s: string)
    requires Plain(s)
    ensures Next(s).None?
  {
    NextNone(s);
  }

  lemma CutAtTrigger(front: string, kind: Kind, body: string)
    requires OccursAt(front + kind.Trigger() + body, kind.Trigger(), |front|)
    requires EndOf(body, kind.Close(), false).None?
    ensures var s := front + kind.Trigger() + body;
      s[..|front|] == front && AfterValue(s, |front|, kind) == ""
  {
    hide EndOf, Kind.Trigger, OccursAt;
    var s := front + kind.Trigger() + body;
    assert s[|front| + |kind.Trigger()|..] == body;
  }

  /** A string or a variant that nothing closes is hidden to the end. */
  lemma UnclosedIsHidden(front: string, value: string, printable: char -> bool)
    requires NoQuote(front)
    ensures Redact(front + "string \"" + Escaped(value, printable)) == front + "string " + "(value not shown)"
    ensures NoBacktick(value) ==>
      Redact(front + "unknown variant `" + value) == front + "unknown variant " + "(value not shown)"
  {
    hide Redact, Escaped, EndOf, NoBacktick, NoQuote, Kind.Trigger, Kind.Prefix;
    NothingCloses(value, printable);
    WordsAre();
    UnclosedValue(front, StringValue, Escaped(value, printable));
    if NoBacktick(value) { UnclosedValue(front, Variant, value); }
  }

  lemma UnclosedIsFree(front: string, body: string, q: string)
    requires Marker(q) && NoQuote(front) && NoQuote(body)
    requires q[|q| - 1] != '`' || !EndsWith(front, q[..|q| - 1])
    ensures Free(front + "`" + body, q)
  {
    var s := front + "`" + body;
    hide OccursAt, EndsWith;
    AppendAssociates(front, "`", body);
    assert forall j | 0 <= j < |front| :: s[j] == front[j];
    assert forall j | 0 <= j < |body| :: s[|front| + 1 + j] == body[j];
    forall i | OccursAt(s, q, i) ensures false {
      OccursQuote(s, q, i);
      OnlyQuote(front, body, i + |q| - 1);
      OccursBefore(front, "`" + body, q, i);
    }
  }

  lemma OnlyQuote(front: string, body: string, i: nat)
    requires NoQuote(front) && NoQuote(body)
    requires var s := front + "`" + body; i < |s| && IsQuote(s[i])
    ensures i == |front| && (front + "`" + body)[i] == '`'
  {
    var s := front + "`" + body;
    assert forall j | 0 <= j < |front| :: s[j] == front[j];
    assert forall j | 0 <= j < |body| :: s[|front| + 1 + j] == body[j];
  }

  lemma UnclosedPass(front: string, body: string, p: string, keepKeys: bool)
    requires Marker(p) && p[|p| - 1] == '`' && NoQuote(front) && NoQuote(body)
    ensures HideBackticked(front + "`" + body, p, keepKeys)
         == if !EndsWith(front, p[..|p| - 1]) then front + "`" + body
            else if Kept(keepKeys, body) then front + "`" + body + "`" else front + HIDDEN
  {
    var s := front + "`" + body;
    hide HideBackticked, FindFrom, HIDDEN, IsBareKey, OccursAt, Quoted, AfterQuoted;
    if !EndsWith(front, p[..|p| - 1]) {
      UnclosedIsFree(front, body, p);
      NotFound(s, p);
      HideBacktickedLast(s, p, keepKeys);
    } else {
      UnclosedStep(front, body, p, keepKeys);
    }
  }

  lemma UnclosedStep(front: string, body: string, p: string, keepKeys: bool)
    requires Marker(p) && p[|p| - 1] == '`' && NoQuote(front) && NoQuote(body) && EndsWith(front, p[..|p| - 1])
    ensures HideBackticked(front + "`" + body, p, keepKeys)
         == if Kept(keepKeys, body) then front + "`" + body + "`" else front + HIDDEN
  {
    hide HideBackticked, FindFrom, HIDDEN, IsBareKey, OccursAt, Quoted, AfterQuoted, NoQuote, EndsWith, Shown, Kept;
    var s := front + "`" + body;
    var text := AtMarker(front, p);
    FirstMarker(text, p, body);
    MarkerLength(front, text, p);
    hide Marker, Free;
    StepFrom(s, p, keepKeys, |text|, |front| + 1);
    UnclosedShown(front, body, keepKeys);
    HideBacktickedOf("", p, keepKeys);
    NothingMore(Shown(s, |front| + 1, keepKeys));
  }

  lemma MarkerLength(front: string, text: string, p: string)
    requires front + "`" == text + p
    ensures |text| + |p| == |front| + 1
  {
    assert |front + "`"| == |text + p|;
  }

  lemma NothingMore(s: string)
    ensures s + "" == s
  {}

  lemma UnclosedShown(front: string, body: string, keepKeys: bool)
    requires NoQuote(body)
    ensures var s := front + "`" + body;
      && Shown(s, |front| + 1, keepKeys)
         == (if Kept(keepKeys, body) then front + "`" + body + "`" else front + HIDDEN)
      && AfterQuoted(s, |front| + 1) == ""
  {
    UnclosedQuoted(front, body);
    hide HIDDEN, IsBareKey, Quoted, AfterQuoted;
    var s := front + "`" + body;
    assert s[..|front| + 1 - 1] == front && s[..|front| + 1] == front + "`";
  }

  lemma UnclosedQuoted(front: string, body: string)
    requires NoQuote(body)
    ensures var s := front + "`" + body;
      Quoted(s, |front| + 1) == body && AfterQuoted(s, |front| + 1) == ""
  {
    var s := front + "`" + body;
    assert s[|front| + 1..] == body;
  }

  /** What the passes have made of such a text so far. */
  datatype Form = Open | Closed | Gone

  function Formed(front: string, body: string, form: Form): string {
    match form
    case Open => front + "`" + body
    case Closed => front + "`" + body + "`"
    case Gone => front + HIDDEN
  }

  function NextForm(front: string, body: string, form: Form, p: string, keepKeys: bool): Form
    requires p != ""
  {
    if form.Gone? || !EndsWith(front, p[..|p| - 1]) then form
    else if Kept(keepKeys, body) then Closed else Gone
  }

  lemma PassOn(front: string, body: string, form: Form, p: string, keepKeys: bool)
    requires Marker(p) && p[|p| - 1] == '`' && NoQuote(front) && NoQuote(body)
    requires form.Closed? ==> IsBareKey(body)
    ensures HideBackticked(Formed(front, body, form), p, keepKeys)
         == Formed(front, body, NextForm(front, body, form, p, keepKeys))
  {
    hide HideBackticked, EndsWith, IsBareKey, NoQuote, Marker, HIDDEN;
    match form
    case Open => UnclosedPass(front, body, p, keepKeys);
    case Closed =>
      KeyIsRemainder(body);
      PassTicked(front, body, false, "", p, keepKeys);
      MarkerIsText(p);
      NothingBehind(front, body, p, keepKeys);
    case Gone =>
      HiddenIsFree(front, p);
      FreeStays(front + HIDDEN, p, keepKeys);
  }

  lemma NothingBehind(front: string, body: string, p: string, keepKeys: bool)
    requires p != ""
    ensures forall hidden :: Ticked(front, body, hidden) + "" == Ticked(front, body, hidden)
    ensures HideBackticked("", p, keepKeys) == ""
  {
    HideBacktickedOf("", p, keepKeys);
  }

  lemma HiddenIsFree(front: string, p: string)
    requires NoQuote(front) && Marker(p)
    ensures Free(front + HIDDEN, p)
  {
    MarkersAre();
    NoQuoteIsFree(front + HIDDEN, p);
  }

  lemma LaterForms(front: string, body: string)
    requires NoQuote(front) && NoQuote(body)
    ensures var a := NextForm(front, body, Open, INTEGER, false);
      var b := NextForm(front, body, a, FLOAT, false);
      var c := NextForm(front, body, b, FIELD, true);
      Later(front + "`" + body) == Formed(front, body, NextForm(front, body, c, DUPLICATE, true))
  {
    MarkersAre();
    TriggerWords();
    hide HideBackticked, EndsWith, IsBareKey, NoQuote, Marker, HIDDEN, Formed;
    var a := NextForm(front, body, Open, INTEGER, false);
    var b := NextForm(front, body, a, FLOAT, false);
    var c := NextForm(front, body, b, FIELD, true);
    FormedOpen(front, body);
    PassOn(front, body, Open, INTEGER, false);
    PassOn(front, body, a, FLOAT, false);
    PassOn(front, body, b, FIELD, true);
    PassOn(front, body, c, DUPLICATE, true);
  }

  lemma FormedOpen(front: string, body: string)
    ensures Formed(front, body, Open) == front + "`" + body
  {}

  lemma UnclosedIsLater(front: string, body: string)
    requires NoQuote(front) && NoQuote(body) && !EndsWith(front, "unknown variant ")
    ensures Redact(front + "`" + body) == Later(front + "`" + body)
  {
    MarkersAre();
    TriggerWords();
    var s := front + "`" + body;
    UnclosedIsFree(front, body, StringValue.Trigger());
    UnclosedIsFree(front, body, Variant.Trigger());
    forall k: Kind ensures Free(s, k.Trigger()) {
      if k.Variant? { assert k == Variant; } else { assert k == StringValue; }
    }
    hide HideValues, HideBackticked, EndsWith, Marker, Kind.Trigger, Free, NoQuote;
    RedactIsLater(s);
    NextOfFree(s);
    HideValuesLast(s);
  }

  /** So is a number or a pasted key; a plain key is shown, with its backtick closed. */
  lemma UnclosedIsHiddenByWords(front: string, body: string)
    requires NoQuote(front) && NoQuote(body)
    requires EndsWith(front, "integer ") || EndsWith(front, "float ")
             || EndsWith(front, "unknown field ") || EndsWith(front, "duplicate key ")
    ensures Redact(front + "`" + body)
         == if (EndsWith(front, "unknown field ") || EndsWith(front, "duplicate key ")) && LooksLikeAKey(body)
            then front + "`" + body + "`" else front + "(value not shown)"
  {
    WordsAre();
    TriggerWords();
    hide Redact, Later, EndsWith, NoQuote, HIDDEN;
    NotAVariant(front);
    UnclosedIsLater(front, body);
    LaterForms(front, body);
    if EndsWith(front, "unknown field ") || EndsWith(front, "duplicate key ") { KeyEnd(front); }
  }

  lemma FreeStays(s: string, p: string, keepKeys: bool)
    requires Marker(p) && Free(s, p)
    ensures HideBackticked(s, p, keepKeys) == s
  {
    NotFound(s, p);
    HideBacktickedLast(s, p, keepKeys);
  }

  lemma KeyIsRemainder(key: string)
    requires IsBareKey(key)
    ensures Remainder(key)
  {
    KeyIsText(key);
  }

  lemma NotAVariant(front: string)
    requires EndsWith(front, "integer ") || EndsWith(front, "float ")
             || EndsWith(front, "unknown field ") || EndsWith(front, "duplicate key ")
    ensures !EndsWith(front, "unknown variant ")
  {
    hide EndsWith;
    if EndsWith(front, "integer ") {
      EndChars(front, "integer ", 'r');
      EndsOtherwise(front, "unknown variant ", 1);
    } else if EndsWith(front, "float ") {
      EndThird(front, "float ", 'a');
      EndsOtherwise(front, "unknown variant ", 2);
    } else {
      KeyEnd(front);
    }
  }

  lemma EndThird(s: string, end: string, c: char)
    requires EndsWith(s, end) && |end| >= 3 && end[|end| - 3] == c
    ensures |s| >= 3 && s[|s| - 3] == c
  {
    assert s[|s| - |end|..][|end| - 3] == s[|s| - 3];
  }
}
