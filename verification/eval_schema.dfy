/** The evaluation set's rules (examples/eval_measure/schema.rs): the checker
    that collects every violation, and the declarative meaning of a sound set. */
module EvalSchema {
  import opened Prelude

  datatype Concept = Concept(
    id: string, topic: string, kind: string, text: string, origin: string, sources: seq<string>)

  datatype Relevant = Relevant(concept: string, grade: nat)

  datatype Query = Query(
    id: string, query: string, kind: string, family: string, topic: string, split: string,
    relevant: seq<Relevant>, facets: seq<string>, source: string, labeller: string, labelledOn: string,
    review: Option<string>)

  /** `tag` is the pair's label. */
  datatype Pair = Pair(
    id: string, a: string, b: string, tag: string, family: string, relation: Option<string>,
    conceptTypes: seq<string>, split: string, source: string, labeller: string, labelledOn: string,
    concepts: seq<string>, review: Option<string>)

  datatype ExportPair = ExportPair(a: string, b: string)

  datatype EvalSet = EvalSet(corpus: seq<Concept>, queries: seq<Query>, pairs: seq<Pair>, exported: seq<ExportPair>)

  const LABELS := ["related_distinct", "paraphrase", "unrelated"]
  const RBD_FAMILIES :=
    ["identifier", "quantity", "polarity", "repository", "correction", "exception", "topic-neighbour"]
  const PARAPHRASE_FAMILIES := ["rewording", "terse", "near-verbatim", "same-event"]
  const UNRELATED_FAMILIES := ["cross-area"]
  const RELATION_REQUIRED := ["identifier", "correction"]
  const RELATIONS := ["supersedes", "distinct_entity", "contradicts"]
  const CONCEPT_TYPES := ["Entity", "Logic", "Constraint", "Resource", "Observation"]
  const ANSWERABLE_FAMILIES :=
    ["fact-lookup", "vocabulary-mismatch", "exact-identifier", "multi-hop", "contrast", "superseded", "rationale"]
  const NO_ANSWER_FAMILIES := ["near-domain", "false-premise", "off-domain", "efficacy", "ledger-miss"]
  const SPLITS := ["dev", "held_out"]
  const ORIGINS := ["dogfood", "authored"]
  const ISSUE_198_PREFIX := "p-198-"
  const REDACTION_MARKER := "[REDACTED"

  /** One message of the checker: the item and the broken rule. */
  datatype Error = Error(what: string, rule: Rule)

  datatype Rule =
    | DuplicateId | DuplicateText | UnknownOrigin | MissingSource | MissingTopicOrType
    | EmptyText | TooLong | RedactionMarker
    | UnknownSplit | NoLabeller | BadDate | EmptyReview
    | MissingSourceOrTopic | UnknownConcept(concept: string) | ListedTwice(concept: string)
    | BadGrade(concept: string, grade: nat)
    | UnknownFamily | NoGradeTwo | NoFacets | NotEmpty | UnknownKind
    | SamePair | IdenticalTexts | UnknownLabel | UnknownRelation | MisplacedRelation | NeedsRelation
    | BadConceptTypes | NeedsConceptTypes | ExportDiffers

  // ---------------------------------------------------------------------
  // Strings
  // ---------------------------------------------------------------------

  /** Unicode White_Space, what `trim` removes. */
  predicate IsWhite(c: char) {
    var n := c as int;
    9 <= n <= 13 || n == 32 || n == 0x85 || n == 0xA0 || n == 0x1680 || 0x2000 <= n <= 0x200A
    || n == 0x2028 || n == 0x2029 || n == 0x202F || n == 0x205F || n == 0x3000
  }

  /** `text.trim().is_empty()`. */
  predicate Blank(text: string) {
    forall i | 0 <= i < |text| :: IsWhite(text[i])
  }

  function Utf8Width(c: char): nat {
    var n := c as int;
    if n < 0x80 then 1 else if n < 0x800 then 2 else if n < 0x10000 then 3 else 4
  }

  /** `text.len()`, in bytes. */
  function ByteLength(text: string): nat {
    if text == "" then 0 else ByteLength(text[..|text| - 1]) + Utf8Width(text[|text| - 1])
  }

  predicate Contains(text: string, part: string) {
    exists i | 0 <= i <= |text| :: OccursAt(text, part, i)
  }

  predicate StartsWith(text: string, prefix: string) {
    prefix <= text
  }

  /** The byte order of UTF-8 strings, which is the order of their characters. */
  predicate AtMost(a: string, b: string) {
    a == "" || (b != "" && (a[0] < b[0] || (a[0] == b[0] && AtMost(a[1..], b[1..]))))
  }

  lemma {:induction false} AtMostTotal(a: string, b: string)
    ensures AtMost(a, b) || AtMost(b, a)
    ensures AtMost(a, b) && AtMost(b, a) ==> a == b
  {
    if a != "" && b != "" && a[0] == b[0] {
      AtMostTotal(a[1..], b[1..]);
      assert a == [a[0]] + a[1..] && b == [b[0]] + b[1..];
    }
  }

  /** YYYY-MM-DD, digit by digit. */
  predicate IsDate(on: string) {
    |on| == 10 && forall i | 0 <= i < 10 :: if i == 4 || i == 7 then on[i] == '-' else '0' <= on[i] <= '9'
  }

  // ---------------------------------------------------------------------
  // The rules, declaratively
  // ---------------------------------------------------------------------

  predicate TextOk(text: string, maxBytes: nat) {
    !Blank(text) && ByteLength(text) <= maxBytes && !Contains(text, REDACTION_MARKER)
  }

  predicate CommonOk(split: string, labeller: string, on: string, review: Option<string>) {
    split in SPLITS && !Blank(labeller) && IsDate(on) && (review.Some? ==> !Blank(review.value))
  }

  predicate ConceptOk(c: Concept, maxBytes: nat) {
    && c.origin in ORIGINS
    && c.sources != [] && (forall i | 0 <= i < |c.sources| :: !Blank(c.sources[i]))
    && !Blank(c.topic) && !Blank(c.kind)
    && TextOk(c.text, maxBytes)
  }

  predicate Lists(corpus: seq<Concept>, id: string) {
    exists i | 0 <= i < |corpus| :: corpus[i].id == id
  }

  predicate RelevantOk(corpus: seq<Concept>, relevant: seq<Relevant>) {
    && (forall i | 0 <= i < |relevant| :: Lists(corpus, relevant[i].concept) && 1 <= relevant[i].grade <= 2)
    && (forall i, j | 0 <= i < j < |relevant| :: relevant[i].concept != relevant[j].concept)
  }

  predicate KindOk(q: Query) {
    || (q.kind == "answerable" && q.family in ANSWERABLE_FAMILIES && q.facets != []
        && exists i | 0 <= i < |q.relevant| :: q.relevant[i].grade == 2)
    || (q.kind == "no_answer" && q.family in NO_ANSWER_FAMILIES && q.relevant == [] && q.facets == [])
  }

  predicate QueryOk(q: Query, corpus: seq<Concept>, maxBytes: nat) {
    && TextOk(q.query, maxBytes)
    && CommonOk(q.split, q.labeller, q.labelledOn, q.review)
    && !Blank(q.source) && !Blank(q.topic)
    && RelevantOk(corpus, q.relevant)
    && KindOk(q)
  }

  function FamiliesOf(tag: string): seq<string> {
    if tag == "related_distinct" then RBD_FAMILIES
    else if tag == "paraphrase" then PARAPHRASE_FAMILIES
    else if tag == "unrelated" then UNRELATED_FAMILIES
    else []
  }

  /** A relation is one of the known ones, only related-but-distinct pairs have
      one, and the families that need one do. */
  predicate RelationOk(p: Pair) {
    match p.relation
    case Some(r) => r in RELATIONS && p.tag == "related_distinct"
    case None => p.family !in RELATION_REQUIRED
  }

  predicate ConceptTypesOk(p: Pair) {
    && (p.conceptTypes != [] ==>
          |p.conceptTypes| == 2 && forall i | 0 <= i < |p.conceptTypes| :: p.conceptTypes[i] in CONCEPT_TYPES)
    && (p.relation == Some("supersedes") ==> p.conceptTypes != [])
  }

  predicate PairOk(p: Pair, corpus: seq<Concept>, maxBytes: nat) {
    && p.a != p.b
    && TextOk(p.a, maxBytes) && TextOk(p.b, maxBytes)
    && CommonOk(p.split, p.labeller, p.labelledOn, p.review)
    && !Blank(p.source)
    && p.tag in LABELS && p.family in FamiliesOf(p.tag)
    && RelationOk(p)
    && ConceptTypesOk(p)
    && (forall i | 0 <= i < |p.concepts| :: Lists(corpus, p.concepts[i]))
  }

  /** The same two texts, whichever comes first. */
  predicate SameTexts(p: Pair, q: Pair) {
    (p.a == q.a && p.b == q.b) || (p.a == q.b && p.b == q.a)
  }

  predicate Exported(p: Pair) {
    p.tag == "related_distinct" && p.review.None? && !StartsWith(p.id, ISSUE_198_PREFIX)
  }

  function ExpectedExport(pairs: seq<Pair>): seq<ExportPair> {
    if pairs == [] then []
    else
      var last := pairs[|pairs| - 1];
      ExpectedExport(pairs[..|pairs| - 1]) + (if Exported(last) then [ExportPair(last.a, last.b)] else [])
  }

  /** A set the metrics may be computed on. */
  ghost predicate Sound(set_: EvalSet, maxBytes: nat) {
    && (forall i | 0 <= i < |set_.corpus| :: ConceptOk(set_.corpus[i], maxBytes))
    && (forall i, j | 0 <= i < j < |set_.corpus| ::
          set_.corpus[i].id != set_.corpus[j].id && set_.corpus[i].text != set_.corpus[j].text)
    && (forall i | 0 <= i < |set_.queries| :: QueryOk(set_.queries[i], set_.corpus, maxBytes))
    && (forall i, j | 0 <= i < j < |set_.queries| ::
          set_.queries[i].id != set_.queries[j].id && set_.queries[i].query != set_.queries[j].query)
    && (forall i | 0 <= i < |set_.pairs| :: PairOk(set_.pairs[i], set_.corpus, maxBytes))
    && (forall i, j | 0 <= i < j < |set_.pairs| ::
          set_.pairs[i].id != set_.pairs[j].id && !SameTexts(set_.pairs[i], set_.pairs[j]))
    && set_.exported == ExpectedExport(set_.pairs)
  }

  // ---------------------------------------------------------------------
  // What each message says
  // ---------------------------------------------------------------------

  predicate TextBreaks(text: string, maxBytes: nat, rule: Rule) {
    match rule
    case EmptyText => Blank(text)
    case TooLong => ByteLength(text) > maxBytes
    case RedactionMarker => Contains(text, REDACTION_MARKER)
    case _ => false
  }

  predicate CommonBreaks(split: string, labeller: string, on: string, review: Option<string>, rule: Rule) {
    match rule
    case UnknownSplit => split !in SPLITS
    case NoLabeller => Blank(labeller)
    case BadDate => !IsDate(on)
    case EmptyReview => review.Some? && Blank(review.value)
    case _ => false
  }

  predicate ConceptBreaks(c: Concept, ids: set<string>, texts: set<string>, maxBytes: nat, rule: Rule) {
    match rule
    case DuplicateId => c.id in ids
    case DuplicateText => c.text in texts
    case UnknownOrigin => c.origin !in ORIGINS
    case MissingSource => c.sources == [] || exists i | 0 <= i < |c.sources| :: Blank(c.sources[i])
    case MissingTopicOrType => Blank(c.topic) || Blank(c.kind)
    case _ => TextBreaks(c.text, maxBytes, rule)
  }

  predicate GradedBreaks(r: Relevant, ids: set<string>, seen: set<string>, rule: Rule) {
    match rule
    case UnknownConcept(concept) => concept == r.concept && concept !in ids
    case ListedTwice(concept) => concept == r.concept && concept in seen
    case BadGrade(concept, grade) => r == Relevant(concept, grade) && !(1 <= grade <= 2)
    case _ => false
  }

  /** The concepts of the first n entries. */
  function ConceptsOf(relevant: seq<Relevant>, n: nat): set<string>
    requires n <= |relevant|
  {
    set i | 0 <= i < n :: relevant[i].concept
  }

  predicate RelevantBreaks(relevant: seq<Relevant>, ids: set<string>, rule: Rule) {
    exists i | 0 <= i < |relevant| :: GradedBreaks(relevant[i], ids, ConceptsOf(relevant, i), rule)
  }

  predicate KindBreaks(q: Query, rule: Rule) {
    match rule
    case UnknownFamily =>
      || (q.kind == "answerable" && q.family !in ANSWERABLE_FAMILIES)
      || (q.kind == "no_answer" && q.family !in NO_ANSWER_FAMILIES)
    case NoGradeTwo => q.kind == "answerable" && forall i | 0 <= i < |q.relevant| :: q.relevant[i].grade != 2
    case NoFacets => q.kind == "answerable" && q.facets == []
    case NotEmpty => q.kind == "no_answer" && (q.relevant != [] || q.facets != [])
    case UnknownKind => q.kind != "answerable" && q.kind != "no_answer"
    case _ => false
  }

  predicate QueryBreaks(q: Query, qids: set<string>, qtexts: set<string>, ids: set<string>, maxBytes: nat, rule: Rule) {
    || (rule.DuplicateId? && q.id in qids)
    || (rule.DuplicateText? && q.query in qtexts)
    || TextBreaks(q.query, maxBytes, rule)
    || CommonBreaks(q.split, q.labeller, q.labelledOn, q.review, rule)
    || (rule.MissingSourceOrTopic? && (Blank(q.source) || Blank(q.topic)))
    || RelevantBreaks(q.relevant, ids, rule)
    || KindBreaks(q, rule)
  }

  predicate RelationBreaks(p: Pair, rule: Rule) {
    match rule
    case UnknownRelation => p.relation.Some? && p.relation.value !in RELATIONS
    case MisplacedRelation =>
      p.relation.Some? && p.relation.value in RELATIONS && p.tag != "related_distinct"
    case NeedsRelation => p.relation.None? && p.family in RELATION_REQUIRED
    case _ => false
  }

  predicate LabelsBreak(p: Pair, rule: Rule) {
    match rule
    case UnknownLabel => p.tag !in LABELS
    case UnknownFamily => FamiliesOf(p.tag) != [] && p.family !in FamiliesOf(p.tag)
    case BadConceptTypes =>
      p.conceptTypes != []
      && (|p.conceptTypes| != 2 || exists i | 0 <= i < |p.conceptTypes| :: p.conceptTypes[i] !in CONCEPT_TYPES)
    case NeedsConceptTypes => p.relation == Some("supersedes") && p.conceptTypes == []
    case _ => RelationBreaks(p, rule)
  }

  predicate PairBreaks(p: Pair, pids: set<string>, seen: set<(string, string)>, ids: set<string>, rule: Rule) {
    || (rule.DuplicateId? && p.id in pids)
    || (rule.SamePair? && KeyOf(p) in seen)
    || (rule.IdenticalTexts? && p.a == p.b)
    || CommonBreaks(p.split, p.labeller, p.labelledOn, p.review, rule)
    || (rule.MissingSource? && Blank(p.source))
    || LabelsBreak(p, rule)
    || (rule.UnknownConcept? && rule.concept in p.concepts && rule.concept !in ids)
  }

  /** A message about a pair, or about one of its texts. */
  predicate PairMessage(p: Pair, pids: set<string>, seen: set<(string, string)>, ids: set<string>, maxBytes: nat,
                        e: Error)
  {
    var what := "pair " + p.id;
    || (e.what == what && PairBreaks(p, pids, seen, ids, e.rule))
    || (e.what == what + " a" && TextBreaks(p.a, maxBytes, e.rule))
    || (e.what == what + " b" && TextBreaks(p.b, maxBytes, e.rule))
  }

  function IdsBefore(corpus: seq<Concept>, n: nat): set<string>
    requires n <= |corpus|
  {
    set i | 0 <= i < n :: corpus[i].id
  }

  function TextsBefore(corpus: seq<Concept>, n: nat): set<string>
    requires n <= |corpus|
  {
    set i | 0 <= i < n :: corpus[i].text
  }

  function QueryIdsBefore(queries: seq<Query>, n: nat): set<string>
    requires n <= |queries|
  {
    set i | 0 <= i < n :: queries[i].id
  }

  function QueryTextsBefore(queries: seq<Query>, n: nat): set<string>
    requires n <= |queries|
  {
    set i | 0 <= i < n :: queries[i].query
  }

  function PairIdsBefore(pairs: seq<Pair>, n: nat): set<string>
    requires n <= |pairs|
  {
    set i | 0 <= i < n :: pairs[i].id
  }

  function KeysBefore(pairs: seq<Pair>, n: nat): set<(string, string)>
    requires n <= |pairs|
  {
    set i | 0 <= i < n :: KeyOf(pairs[i])
  }

  predicate ConceptMessage(corpus: seq<Concept>, n: nat, maxBytes: nat, e: Error)
    requires n < |corpus|
  {
    && e.what == "corpus " + corpus[n].id
    && ConceptBreaks(corpus[n], IdsBefore(corpus, n), TextsBefore(corpus, n), maxBytes, e.rule)
  }

  predicate QueryMessage(queries: seq<Query>, n: nat, ids: set<string>, maxBytes: nat, e: Error)
    requires n < |queries|
  {
    && e.what == "query " + queries[n].id
    && QueryBreaks(queries[n], QueryIdsBefore(queries, n), QueryTextsBefore(queries, n), ids, maxBytes, e.rule)
  }

  predicate PairMessageAt(pairs: seq<Pair>, n: nat, ids: set<string>, maxBytes: nat, e: Error)
    requires n < |pairs|
  {
    PairMessage(pairs[n], PairIdsBefore(pairs, n), KeysBefore(pairs, n), ids, maxBytes, e)
  }

  predicate ConceptViolation(corpus: seq<Concept>, n: nat, maxBytes: nat, e: Error)
    requires n <= |corpus|
  {
    exists i | 0 <= i < n :: ConceptMessage(corpus, i, maxBytes, e)
  }

  predicate QueryViolation(queries: seq<Query>, n: nat, ids: set<string>, maxBytes: nat, e: Error)
    requires n <= |queries|
  {
    exists i | 0 <= i < n :: QueryMessage(queries, i, ids, maxBytes, e)
  }

  predicate PairViolation(pairs: seq<Pair>, n: nat, ids: set<string>, maxBytes: nat, e: Error)
    requires n <= |pairs|
  {
    exists i | 0 <= i < n :: PairMessageAt(pairs, i, ids, maxBytes, e)
  }

  lemma ConceptViolationMore(corpus: seq<Concept>, n: nat, maxBytes: nat)
    requires n < |corpus|
    ensures forall e :: ConceptViolation(corpus, n + 1, maxBytes, e) <==>
              ConceptViolation(corpus, n, maxBytes, e) || ConceptMessage(corpus, n, maxBytes, e)
  {
    hide ConceptMessage;
  }

  lemma QueryViolationMore(queries: seq<Query>, n: nat, ids: set<string>, maxBytes: nat)
    requires n < |queries|
    ensures forall e :: QueryViolation(queries, n + 1, ids, maxBytes, e) <==>
              QueryViolation(queries, n, ids, maxBytes, e) || QueryMessage(queries, n, ids, maxBytes, e)
  {
    hide QueryMessage;
  }

  lemma PairViolationMore(pairs: seq<Pair>, n: nat, ids: set<string>, maxBytes: nat)
    requires n < |pairs|
    ensures forall e :: PairViolation(pairs, n + 1, ids, maxBytes, e) <==>
              PairViolation(pairs, n, ids, maxBytes, e) || PairMessageAt(pairs, n, ids, maxBytes, e)
  {
    hide PairMessageAt;
  }

  lemma NoViolationYet(set_: EvalSet, ids: set<string>, maxBytes: nat)
    ensures forall e :: !ConceptViolation(set_.corpus, 0, maxBytes, e)
    ensures forall e :: !QueryViolation(set_.queries, 0, ids, maxBytes, e)
    ensures forall e :: !PairViolation(set_.pairs, 0, ids, maxBytes, e)
  {}

  /** Some rule is broken, and this is its message. */
  predicate Violates(set_: EvalSet, maxBytes: nat, e: Error) {
    var ids := IdsBefore(set_.corpus, |set_.corpus|);
    || ConceptViolation(set_.corpus, |set_.corpus|, maxBytes, e)
    || QueryViolation(set_.queries, |set_.queries|, ids, maxBytes, e)
    || PairViolation(set_.pairs, |set_.pairs|, ids, maxBytes, e)
    || (e == Error("related_pairs.json", ExportDiffers) && set_.exported != ExpectedExport(set_.pairs))
  }

  // ---------------------------------------------------------------------
  // The checker
  // ---------------------------------------------------------------------

  /** Adds a message when a rule is broken. */
  method Push(errors: seq<Error>, broken: bool, what: string, rule: Rule) returns (out: seq<Error>)
    ensures out == if broken then errors + [Error(what, rule)] else errors
    ensures forall e :: e in out <==> e in errors || (broken && e == Error(what, rule))
  {
    out := errors;
    if broken {
      out := out + [Error(what, rule)];
    }
  }

  method CheckText(errors: seq<Error>, what: string, text: string, maxBytes: nat) returns (out: seq<Error>)
    ensures |errors| <= |out| && (|out| == |errors| <==> TextOk(text, maxBytes))
    ensures forall e :: e in out <==> e in errors || (e.what == what && TextBreaks(text, maxBytes, e.rule))
  {
    hide Blank, ByteLength, Contains;
    out := Push(errors, Blank(text), what, EmptyText);
    out := Push(out, ByteLength(text) > maxBytes, what, TooLong);
    out := Push(out, Contains(text, REDACTION_MARKER), what, RedactionMarker);
  }

  method CheckCommon(errors: seq<Error>, what: string, split: string, labeller: string, on: string,
                     review: Option<string>) returns (out: seq<Error>)
    ensures |errors| <= |out| && (|out| == |errors| <==> CommonOk(split, labeller, on, review))
    ensures forall e :: e in out <==>
              e in errors || (e.what == what && CommonBreaks(split, labeller, on, review, e.rule))
  {
    hide Blank, IsDate, SPLITS;
    out := Push(errors, split !in SPLITS, what, UnknownSplit);
    out := Push(out, Blank(labeller), what, NoLabeller);
    out := Push(out, !IsDate(on), what, BadDate);
    out := Push(out, review.Some? && Blank(review.value), what, EmptyReview);
  }

  method CheckConcept(errors: seq<Error>, c: Concept, ids: set<string>, texts: set<string>, maxBytes: nat)
    returns (out: seq<Error>)
    ensures |errors| <= |out|
    ensures |out| == |errors| <==> c.id !in ids && c.text !in texts && ConceptOk(c, maxBytes)
    ensures forall e :: e in out <==>
              e in errors || (e.what == "corpus " + c.id && ConceptBreaks(c, ids, texts, maxBytes, e.rule))
  {
    hide Blank, TextOk, ORIGINS, TextBreaks;
    var what := "corpus " + c.id;
    out := CheckIdentity(errors, what, c, ids, texts);
    out := CheckText(out, what, c.text, maxBytes);
    TextRules(c.text, maxBytes);
  }

  lemma TextRules(text: string, maxBytes: nat)
    ensures forall rule :: TextBreaks(text, maxBytes, rule) ==>
              rule.EmptyText? || rule.TooLong? || rule.RedactionMarker?
  {}

  /** A concept's id, text, origin, sources, topic and type. */
  method CheckIdentity(errors: seq<Error>, what: string, c: Concept, ids: set<string>, texts: set<string>)
    returns (out: seq<Error>)
    ensures |errors| <= |out|
    ensures |out| == |errors| <==>
              && c.id !in ids && c.text !in texts && c.origin in ORIGINS && c.sources != []
              && (forall i | 0 <= i < |c.sources| :: !Blank(c.sources[i])) && !Blank(c.topic) && !Blank(c.kind)
    ensures forall e :: e in out <==>
              e in errors || (e.what == what && match e.rule
                              case DuplicateId => c.id in ids
                              case DuplicateText => c.text in texts
                              case UnknownOrigin => c.origin !in ORIGINS
                              case MissingSource =>
                                c.sources == [] || exists i | 0 <= i < |c.sources| :: Blank(c.sources[i])
                              case MissingTopicOrType => Blank(c.topic) || Blank(c.kind)
                              case _ => false)
  {
    hide Blank, ORIGINS;
    out := Push(errors, c.id in ids, what, DuplicateId);
    out := Push(out, c.text in texts, what, DuplicateText);
    out := Push(out, c.origin !in ORIGINS, what, UnknownOrigin);
    out := Push(out, c.sources == [] || exists i | 0 <= i < |c.sources| :: Blank(c.sources[i]), what, MissingSource);
    out := Push(out, Blank(c.topic) || Blank(c.kind), what, MissingTopicOrType);
  }

  method CheckCorpus(corpus: seq<Concept>, maxBytes: nat) returns (errors: seq<Error>, ids: set<string>)
    ensures forall id :: id in ids <==> Lists(corpus, id)
    ensures errors == [] <==>
              && (forall i | 0 <= i < |corpus| :: ConceptOk(corpus[i], maxBytes))
              && (forall i, j | 0 <= i < j < |corpus| ::
                    corpus[i].id != corpus[j].id && corpus[i].text != corpus[j].text)
    ensures forall e :: e in errors <==> ConceptViolation(corpus, |corpus|, maxBytes, e)
    ensures ids == IdsBefore(corpus, |corpus|)
  {
    NoViolationYet(EvalSet(corpus, [], [], []), {}, maxBytes);
    hide ConceptOk, ConceptViolation, ConceptBreaks;
    errors, ids := [], {};
    var texts := {};
    for n := 0 to |corpus|
      invariant ids == IdsBefore(corpus, n) && texts == TextsBefore(corpus, n)
      invariant forall e :: e in errors <==> ConceptViolation(corpus, n, maxBytes, e)
      invariant errors == [] <==>
                  && (forall i | 0 <= i < n :: ConceptOk(corpus[i], maxBytes))
                  && (forall i, j | 0 <= i < j < n :: corpus[i].id != corpus[j].id && corpus[i].text != corpus[j].text)
    {
      ConceptViolationMore(corpus, n, maxBytes);
      errors := CheckConcept(errors, corpus[n], ids, texts, maxBytes);
      ids, texts := ids + {corpus[n].id}, texts + {corpus[n].text};
    }
  }

  method CheckRelevant(errors: seq<Error>, what: string, relevant: seq<Relevant>, corpus: seq<Concept>,
                       ids: set<string>)
    returns (out: seq<Error>)
    requires forall id :: id in ids <==> Lists(corpus, id)
    ensures |errors| <= |out| && (|out| == |errors| <==> RelevantOk(corpus, relevant))
    ensures forall e :: e in out <==> e in errors || (e.what == what && RelevantBreaks(relevant, ids, e.rule))
  {
    hide RelevantOk;
    RelevantNone(corpus);
    assert relevant[..0] == [];
    out := errors;
    var seen := {};
    for n := 0 to |relevant|
      invariant seen == ConceptsOf(relevant, n)
      invariant |errors| <= |out|
      invariant |out| == |errors| <==> RelevantOk(corpus, relevant[..n])
      invariant forall e :: e in out <==>
                  e in errors || (e.what == what && exists i | 0 <= i < n ::
                    GradedBreaks(relevant[i], ids, ConceptsOf(relevant, i), e.rule))
    {
      var r := relevant[n];
      assert relevant[..n + 1] == relevant[..n] + [r];
      out := CheckGraded(out, what, r, ids, seen);
      RelevantOneMore(corpus, relevant[..n], r);
      seen := seen + {r.concept};
    }
    assert relevant[..|relevant|] == relevant;
  }

  method CheckGraded(errors: seq<Error>, what: string, r: Relevant, ids: set<string>, seen: set<string>)
    returns (out: seq<Error>)
    ensures |errors| <= |out|
    ensures |out| == |errors| <==> r.concept in ids && r.concept !in seen && 1 <= r.grade <= 2
    ensures forall e :: e in out <==> e in errors || (e.what == what && GradedBreaks(r, ids, seen, e.rule))
  {
    out := Push(errors, r.concept !in ids, what, UnknownConcept(r.concept));
    out := Push(out, r.concept in seen, what, ListedTwice(r.concept));
    out := Push(out, !(1 <= r.grade <= 2), what, BadGrade(r.concept, r.grade));
  }

  lemma RelevantNone(corpus: seq<Concept>)
    ensures RelevantOk(corpus, [])
  {}

  lemma RelevantOneMore(corpus: seq<Concept>, relevant: seq<Relevant>, r: Relevant)
    ensures RelevantOk(corpus, relevant + [r])
       <==> RelevantOk(corpus, relevant) && Lists(corpus, r.concept) && 1 <= r.grade <= 2
            && forall i | 0 <= i < |relevant| :: relevant[i].concept != r.concept
  {
    var all, n := relevant + [r], |relevant|;
    assert all[n] == r;
    assert forall i | 0 <= i < n :: all[i] == relevant[i];
  }

  method CheckKind(errors: seq<Error>, what: string, q: Query) returns (out: seq<Error>)
    ensures |errors| <= |out| && (|out| == |errors| <==> KindOk(q))
    ensures forall e :: e in out <==> e in errors || (e.what == what && KindBreaks(q, e.rule))
  {
    hide ANSWERABLE_FAMILIES, NO_ANSWER_FAMILIES;
    if q.kind == "answerable" {
      out := CheckAnswerable(errors, what, q);
    } else if q.kind == "no_answer" {
      out := Push(errors, q.family !in NO_ANSWER_FAMILIES, what, UnknownFamily);
      out := Push(out, q.relevant != [] || q.facets != [], what, NotEmpty);
    } else {
      out := Push(errors, true, what, UnknownKind);
    }
  }

  method CheckAnswerable(errors: seq<Error>, what: string, q: Query) returns (out: seq<Error>)
    requires q.kind == "answerable"
    ensures |errors| <= |out| && (|out| == |errors| <==> KindOk(q))
    ensures forall e :: e in out <==> e in errors || (e.what == what && KindBreaks(q, e.rule))
  {
    hide ANSWERABLE_FAMILIES, NO_ANSWER_FAMILIES;
    out := Push(errors, q.family !in ANSWERABLE_FAMILIES, what, UnknownFamily);
    out := Push(out, !exists i | 0 <= i < |q.relevant| :: q.relevant[i].grade == 2, what, NoGradeTwo);
    out := Push(out, q.facets == [], what, NoFacets);
  }

  method CheckQuery(errors: seq<Error>, q: Query, qids: set<string>, qtexts: set<string>,
                    corpus: seq<Concept>, ids: set<string>, maxBytes: nat) returns (out: seq<Error>)
    requires forall id :: id in ids <==> Lists(corpus, id)
    ensures |errors| <= |out|
    ensures |out| == |errors| <==> q.id !in qids && q.query !in qtexts && QueryOk(q, corpus, maxBytes)
    ensures forall e :: e in out <==>
              e in errors || (e.what == "query " + q.id && QueryBreaks(q, qids, qtexts, ids, maxBytes, e.rule))
  {
    hide TextOk, CommonOk, RelevantOk, KindOk, TextBreaks, CommonBreaks, RelevantBreaks, KindBreaks, Blank;
    var what := "query " + q.id;
    out := Push(errors, q.id in qids, what, DuplicateId);
    out := Push(out, q.query in qtexts, what, DuplicateText);
    out := CheckText(out, what, q.query, maxBytes);
    out := CheckCommon(out, what, q.split, q.labeller, q.labelledOn, q.review);
    out := Push(out, Blank(q.source) || Blank(q.topic), what, MissingSourceOrTopic);
    out := CheckRelevant(out, what, q.relevant, corpus, ids);
    out := CheckKind(out, what, q);
  }

  method CheckQueries(errors: seq<Error>, queries: seq<Query>, corpus: seq<Concept>, ids: set<string>, maxBytes: nat)
    returns (out: seq<Error>)
    requires forall id :: id in ids <==> Lists(corpus, id)
    ensures |errors| <= |out|
    ensures |out| == |errors| <==>
              && (forall i | 0 <= i < |queries| :: QueryOk(queries[i], corpus, maxBytes))
              && (forall i, j | 0 <= i < j < |queries| ::
                    queries[i].id != queries[j].id && queries[i].query != queries[j].query)
    ensures forall e :: e in out <==> e in errors || QueryViolation(queries, |queries|, ids, maxBytes, e)
  {
    NoViolationYet(EvalSet([], queries, [], []), ids, maxBytes);
    hide QueryOk, QueryViolation, QueryBreaks;
    out := errors;
    var qids, qtexts := {}, {};
    for n := 0 to |queries|
      invariant qids == QueryIdsBefore(queries, n) && qtexts == QueryTextsBefore(queries, n)
      invariant forall e :: e in out <==> e in errors || QueryViolation(queries, n, ids, maxBytes, e)
      invariant |errors| <= |out|
      invariant |out| == |errors| <==>
                  && (forall i | 0 <= i < n :: QueryOk(queries[i], corpus, maxBytes))
                  && (forall i, j | 0 <= i < j < n ::
                        queries[i].id != queries[j].id && queries[i].query != queries[j].query)
    {
      QueryViolationMore(queries, n, ids, maxBytes);
      out := CheckQuery(out, queries[n], qids, qtexts, corpus, ids, maxBytes);
      qids, qtexts := qids + {queries[n].id}, qtexts + {queries[n].query};
    }
  }

  /** The two texts in order: the key under which a pair is remembered. */
  function KeyOf(p: Pair): (string, string) {
    if AtMost(p.a, p.b) then (p.a, p.b) else (p.b, p.a)
  }

  lemma KeysAreUnordered(p: Pair, q: Pair)
    ensures KeyOf(p) == KeyOf(q) <==> SameTexts(p, q)
  {
    AtMostTotal(p.a, p.b);
    AtMostTotal(q.a, q.b);
  }

  method CheckRelation(errors: seq<Error>, what: string, p: Pair) returns (out: seq<Error>)
    ensures |errors| <= |out| && (|out| == |errors| <==> RelationOk(p))
    ensures forall e :: e in out <==> e in errors || (e.what == what && RelationBreaks(p, e.rule))
  {
    hide RELATIONS, RELATION_REQUIRED;
    match p.relation
    case Some(r) =>
      if r !in RELATIONS {
        out := errors + [Error(what, UnknownRelation)];
      } else {
        out := Push(errors, p.tag != "related_distinct", what, MisplacedRelation);
      }
    case None =>
      out := Push(errors, p.family in RELATION_REQUIRED, what, NeedsRelation);
  }

  method CheckLabels(errors: seq<Error>, what: string, p: Pair) returns (out: seq<Error>)
    ensures |errors| <= |out|
    ensures |out| == |errors| <==>
              p.tag in LABELS && p.family in FamiliesOf(p.tag) && RelationOk(p) && ConceptTypesOk(p)
    ensures forall e :: e in out <==> e in errors || (e.what == what && LabelsBreak(p, e.rule))
  {
    out := CheckFamily(errors, what, p);
    out := CheckRelation(out, what, p);
    out := CheckConceptTypes(out, what, p);
    hide RelationOk, ConceptTypesOk, LABELS, FamiliesOf, CONCEPT_TYPES, RelationBreaks;
    RelationRules(p);
  }

  lemma RelationRules(p: Pair)
    ensures forall rule :: RelationBreaks(p, rule) ==>
              rule.UnknownRelation? || rule.MisplacedRelation? || rule.NeedsRelation?
  {}

  method CheckFamily(errors: seq<Error>, what: string, p: Pair) returns (out: seq<Error>)
    ensures |errors| <= |out| && (|out| == |errors| <==> p.tag in LABELS && p.family in FamiliesOf(p.tag))
    ensures forall e :: e in out <==>
              || e in errors
              || (e.what == what && e.rule.UnknownLabel? && p.tag !in LABELS)
              || (e.what == what && e.rule.UnknownFamily? && FamiliesOf(p.tag) != [] && p.family !in FamiliesOf(p.tag))
  {
    FamiliesOfLabels(p.tag);
    hide FamiliesOf, LABELS;
    out := Push(errors, p.tag !in LABELS, what, UnknownLabel);
    out := Push(out, FamiliesOf(p.tag) != [] && p.family !in FamiliesOf(p.tag), what, UnknownFamily);
  }

  lemma FamiliesOfLabels(tag: string)
    ensures FamiliesOf(tag) == [] <==> tag !in LABELS
  {}

  method CheckConceptTypes(errors: seq<Error>, what: string, p: Pair) returns (out: seq<Error>)
    ensures |errors| <= |out| && (|out| == |errors| <==> ConceptTypesOk(p))
    ensures forall e :: e in out <==>
              || e in errors
              || (e.what == what && (e.rule.BadConceptTypes? || e.rule.NeedsConceptTypes?) && LabelsBreak(p, e.rule))
  {
    hide CONCEPT_TYPES;
    out := Push(errors,
                p.conceptTypes != []
                && (|p.conceptTypes| != 2
                    || exists i | 0 <= i < |p.conceptTypes| :: p.conceptTypes[i] !in CONCEPT_TYPES),
                what, BadConceptTypes);
    out := Push(out, p.relation == Some("supersedes") && p.conceptTypes == [], what, NeedsConceptTypes);
  }

  method CheckConcepts(errors: seq<Error>, what: string, concepts: seq<string>, corpus: seq<Concept>, ids: set<string>)
    returns (out: seq<Error>)
    requires forall id :: id in ids <==> Lists(corpus, id)
    ensures |errors| <= |out| && (|out| == |errors| <==> forall i | 0 <= i < |concepts| :: Lists(corpus, concepts[i]))
    ensures forall e :: e in out <==>
              e in errors || (e.what == what && e.rule.UnknownConcept?
                              && e.rule.concept in concepts && e.rule.concept !in ids)
  {
    hide Lists;
    out := errors;
    for n := 0 to |concepts|
      invariant |errors| <= |out|
      invariant |out| == |errors| <==> forall i | 0 <= i < n :: Lists(corpus, concepts[i])
      invariant forall e :: e in out <==>
                  e in errors || (e.what == what && e.rule.UnknownConcept?
                                  && e.rule.concept in concepts[..n] && e.rule.concept !in ids)
    {
      assert concepts[..n + 1] == concepts[..n] + [concepts[n]];
      out := Push(out, concepts[n] !in ids, what, UnknownConcept(concepts[n]));
    }
    assert concepts[..|concepts|] == concepts;
  }

  method CheckPair(errors: seq<Error>, p: Pair, pids: set<string>, seen: set<(string, string)>,
                   corpus: seq<Concept>, ids: set<string>, maxBytes: nat) returns (out: seq<Error>)
    requires forall id :: id in ids <==> Lists(corpus, id)
    ensures |errors| <= |out|
    ensures |out| == |errors| <==> p.id !in pids && KeyOf(p) !in seen && PairOk(p, corpus, maxBytes)
    ensures forall e :: e in out <==> e in errors || PairMessage(p, pids, seen, ids, maxBytes, e)
  {
    hide TextOk, CommonOk, RelationOk, ConceptTypesOk, TextBreaks, CommonBreaks, LabelsBreak, Blank, KeyOf;
    var what := "pair " + p.id;
    out := Push(errors, p.id in pids, what, DuplicateId);
    out := Push(out, KeyOf(p) in seen, what, SamePair);
    out := Push(out, p.a == p.b, what, IdenticalTexts);
    out := CheckText(out, what + " a", p.a, maxBytes);
    out := CheckText(out, what + " b", p.b, maxBytes);
    out := CheckCommon(out, what, p.split, p.labeller, p.labelledOn, p.review);
    out := Push(out, Blank(p.source), what, MissingSource);
    out := CheckLabels(out, what, p);
    out := CheckConcepts(out, what, p.concepts, corpus, ids);
  }

  method CheckPairs(errors: seq<Error>, pairs: seq<Pair>, corpus: seq<Concept>, ids: set<string>, maxBytes: nat)
    returns (out: seq<Error>)
    requires forall id :: id in ids <==> Lists(corpus, id)
    ensures |errors| <= |out|
    ensures |out| == |errors| <==>
              && (forall i | 0 <= i < |pairs| :: PairOk(pairs[i], corpus, maxBytes))
              && (forall i, j | 0 <= i < j < |pairs| :: pairs[i].id != pairs[j].id && !SameTexts(pairs[i], pairs[j]))
    ensures forall e :: e in out <==> e in errors || PairViolation(pairs, |pairs|, ids, maxBytes, e)
  {
    NoViolationYet(EvalSet([], [], pairs, []), ids, maxBytes);
    hide PairOk, KeyOf, SameTexts, PairViolation, PairMessage;
    out := errors;
    var pids: set<string>, seen: set<(string, string)> := {}, {};
    for n := 0 to |pairs|
      invariant pids == PairIdsBefore(pairs, n) && seen == KeysBefore(pairs, n)
      invariant forall e :: e in out <==> e in errors || PairViolation(pairs, n, ids, maxBytes, e)
      invariant |errors| <= |out|
      invariant |out| == |errors| <==>
                  && (forall i | 0 <= i < n :: PairOk(pairs[i], corpus, maxBytes))
                  && (forall i, j | 0 <= i < j < n :: pairs[i].id != pairs[j].id && !SameTexts(pairs[i], pairs[j]))
    {
      forall i | 0 <= i < n
        ensures KeyOf(pairs[i]) == KeyOf(pairs[n]) <==> SameTexts(pairs[i], pairs[n])
      {
        KeysAreUnordered(pairs[i], pairs[n]);
      }
      PairViolationMore(pairs, n, ids, maxBytes);
      out := CheckPair(out, pairs[n], pids, seen, corpus, ids, maxBytes);
      pids, seen := pids + {pairs[n].id}, seen + {KeyOf(pairs[n])};
    }
  }

  /** The checker is sound and complete: no message exactly for a sound set. */
  method Validate(set_: EvalSet, maxBytes: nat) returns (errors: seq<Error>)
    ensures errors == [] <==> Sound(set_, maxBytes)
    ensures forall e :: e in errors <==> Violates(set_, maxBytes, e)
  {
    var ids: set<string>;
    errors, ids := CheckCorpus(set_.corpus, maxBytes);
    errors := CheckQueries(errors, set_.queries, set_.corpus, ids, maxBytes);
    errors := CheckPairs(errors, set_.pairs, set_.corpus, ids, maxBytes);
    if set_.exported != ExpectedExport(set_.pairs) {
      errors := errors + [Error("related_pairs.json", ExportDiffers)];
    }
  }

  // ---------------------------------------------------------------------
  // The export
  // ---------------------------------------------------------------------

  function ExportedAt(pairs: seq<Pair>): seq<nat> {
    if pairs == [] then []
    else ExportedAt(pairs[..|pairs| - 1]) + (if Exported(pairs[|pairs| - 1]) then [|pairs| - 1] else [])
  }

  /** Some positions are exactly those of the exported pairs, in order, and the
      export is what stands there. */
  ghost predicate Filters(pairs: seq<Pair>, at: seq<nat>, export_: seq<ExportPair>) {
    && |at| == |export_| && Increasing(at)
    && (forall i | 0 <= i < |at| :: IsExportOf(pairs, at[i], export_[i]))
    && (forall p | 0 <= p < |pairs| && Adjudicated(pairs[p]) && !("p-198-" <= pairs[p].id) :: p in at)
  }

  /** A related-but-distinct pair that awaits no review. */
  predicate Adjudicated(p: Pair) {
    p.tag == "related_distinct" && p.review == None
  }

  ghost predicate IsExportOf(pairs: seq<Pair>, p: nat, export_: ExportPair) {
    && p < |pairs| && Adjudicated(pairs[p]) && !("p-198-" <= pairs[p].id)
    && export_ == ExportPair(pairs[p].a, pairs[p].b)
  }

  lemma FiltersOneMore(pairs: seq<Pair>, last: Pair, at: seq<nat>, export_: seq<ExportPair>)
    requires Filters(pairs, at, export_)
    ensures !Exported(last) ==> Filters(pairs + [last], at, export_)
    ensures Exported(last) ==> Filters(pairs + [last], at + [|pairs|], export_ + [ExportPair(last.a, last.b)])
  {
    ExportedMeans(last);
    hide Exported, Adjudicated;
    var all := pairs + [last];
    forall i | 0 <= i < |at| ensures at[i] < |pairs| && IsExportOf(all, at[i], export_[i]) {
      assert IsExportOf(pairs, at[i], export_[i]);
    }
    assert IsExportOf(all, |pairs|, ExportPair(last.a, last.b)) <==> Exported(last);
    hide IsExportOf;
    forall p | 0 <= p < |all| && Adjudicated(all[p]) && !("p-198-" <= all[p].id) ensures p in at || p == |pairs| {
      if p < |pairs| { assert all[p] == pairs[p]; }
    }
  }

  lemma ExportedMeans(p: Pair)
    ensures Exported(p) <==> Adjudicated(p) && !("p-198-" <= p.id)
  {}

  /** The export holds the exported pairs, each once, in file order. */
  lemma {:induction false} ExportIsTheFilter(pairs: seq<Pair>)
    ensures Filters(pairs, ExportedAt(pairs), ExpectedExport(pairs))
  {
    hide Filters, Exported;
    if pairs == [] {
      NothingToFilter();
    } else {
      var init, last := pairs[..|pairs| - 1], pairs[|pairs| - 1];
      ExportIsTheFilter(init);
      FiltersOneMore(init, last, ExportedAt(init), ExpectedExport(init));
      assert init + [last] == pairs;
      assert ExportedAt(init) + [] == ExportedAt(init) && ExpectedExport(init) + [] == ExpectedExport(init);
    }
  }

  lemma NothingToFilter()
    ensures Filters([], [], [])
  {}

  // ---------------------------------------------------------------------
  // A sound set
  // ---------------------------------------------------------------------

  const DAY := "2026-09-07"

  function SampleConcept(): Concept {
    Concept("c", "t", "Entity", "x", "authored", ["s"])
  }

  function SampleQuery(): Query {
    Query("q", "x", "answerable", "fact-lookup", "t", "dev", [Relevant("c", 2)], ["f"], "s", "l", DAY, None)
  }

  function SamplePair(): Pair {
    Pair("p", "x", "y", "related_distinct", "quantity", None, [], "held_out", "s", "l", DAY, ["c"], None)
  }

  function Sample(): EvalSet {
    EvalSet([SampleConcept()], [SampleQuery()], [SamplePair()], [ExportPair("x", "y")])
  }

  lemma ShortTextIsOk(text: string, maxBytes: nat)
    requires |text| == 1 && 'a' <= text[0] <= 'z' && maxBytes >= 1
    ensures TextOk(text, maxBytes) && !Blank(text)
  {
    assert ByteLength(text[..0]) == 0;
    assert !IsWhite(text[0]);
    assert |REDACTION_MARKER| > 1;
  }

  lemma DayIsDate()
    ensures IsDate(DAY)
  {}

  lemma SampleConceptIsOk(maxBytes: nat)
    requires maxBytes >= 1
    ensures ConceptOk(SampleConcept(), maxBytes)
  {
    ShortTextIsOk("x", maxBytes);
    ShortTextIsOk("s", maxBytes);
    ShortTextIsOk("t", maxBytes);
    hide TextOk;
    assert !IsWhite("Entity"[0]);
  }

  lemma SampleQueryIsOk(maxBytes: nat)
    requires maxBytes >= 1
    ensures QueryOk(SampleQuery(), [SampleConcept()], maxBytes)
  {
    ShortTextIsOk("x", maxBytes);
    ShortTextIsOk("s", maxBytes);
    ShortTextIsOk("t", maxBytes);
    ShortTextIsOk("l", maxBytes);
    DayIsDate();
    hide TextOk, IsDate, Blank;
    assert [SampleConcept()][0].id == "c";
    assert ANSWERABLE_FAMILIES[0] == "fact-lookup" && SPLITS[0] == "dev";
    assert SampleQuery().relevant[0].grade == 2;
  }

  lemma SamplePairIsOk(maxBytes: nat)
    requires maxBytes >= 1
    ensures PairOk(SamplePair(), [SampleConcept()], maxBytes)
  {
    ShortTextIsOk("x", maxBytes);
    ShortTextIsOk("y", maxBytes);
    ShortTextIsOk("s", maxBytes);
    ShortTextIsOk("l", maxBytes);
    DayIsDate();
    hide TextOk, IsDate, Blank;
    assert [SampleConcept()][0].id == "c";
    assert RBD_FAMILIES[1] == "quantity" && SPLITS[1] == "held_out" && LABELS[0] == "related_distinct";
    assert "x"[0] != "y"[0];
    assert |"quantity"| != |"identifier"| && |"quantity"| != |"correction"|;
  }

  /** The rules can be met: here is a set with a concept, a query and a pair. */
  lemma SampleIsSound(maxBytes: nat)
    requires maxBytes >= 1
    ensures Sound(Sample(), maxBytes)
  {
    SampleConceptIsOk(maxBytes);
    SampleQueryIsOk(maxBytes);
    SamplePairIsOk(maxBytes);
    hide ConceptOk, QueryOk, PairOk;
    SampleExport();
    hide SampleConcept, SampleQuery, SamplePair;
  }

  lemma SampleExport()
    ensures ExpectedExport([SamplePair()]) == [ExportPair("x", "y")]
  {
    var p := SamplePair();
    assert |p.id| < |ISSUE_198_PREFIX|;
    assert [p][..0] == [] && ExpectedExport([]) == [];
  }
}
