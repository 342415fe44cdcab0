/**
  The orchestrator (backend/app/services/pipeline.py): which stages run,
  and the shape of its per-message results.

  The stages themselves are the other modules of this model. Three
  collaborators are parameters: `prepare_semantic_input` (the line filter
  applied to a body) and the semantic extractor's `extract_batch`, neither
  of which is part of this model, and the semantic extractor's `extract`
  with its error handling, whose scores come from an embedding model.
 */
module Pipeline {
  import opened Results
  import opened Text
  import opened Steps
  import opened Splitter
  import Cleaner
  import E = Extractor
  import C = Classifier
  import A = Aggregator
  import Semantic
  import AppConfig

  // Importing the semantic stage

  /** The names the pipeline module imports from `app.services.semantic`, in import order. */
  const SemanticImports: seq<string> := ["SemanticResult", "get_semantic_extractor", "prepare_semantic_input"]

  /** The module-level names `app.services.semantic` binds: its imports and its definitions. */
  const SemanticNames: set<string> := {
    "annotations", "dataclass", "Iterable", "List", "Optional", "Protocol", "Sequence", "Tuple",
    "np", "Config", "logger",
    "JOB_TEMPLATE", "EmbeddingModel", "default_model", "SemanticResult", "SemanticExtractor",
    "get_semantic_extractor"}

  /** The methods `SemanticExtractor` defines. */
  const ExtractorMethods: set<string> := {"__init__", "_embed", "_cosine", "extract"}

  /**
    `from m import a, b, ...` against the names `m` binds: the first
    missing name raises ImportError, and the import binds nothing.
   */
  function ImportNames(bound: set<string>, names: seq<string>): (r: Result<seq<string>>)
    ensures r.Ok? <==> forall k :: 0 <= k < |names| ==> names[k] in bound
    ensures r.Ok? ==> r.value == names
    ensures r.Err? ==> exists k :: 0 <= k < |names| && names[k] !in bound && r.error == ImportError(names[k])
  {
    if names == [] then Ok([])
    else if names[0] !in bound then Err(ImportError(names[0]))
    else
      match ImportNames(bound, names[1..])
      case Ok(rest) => Ok([names[0]] + rest)
      case Err(e) => Err(e)
  }

  /**
    As written, the pipeline module cannot be imported: the semantic module
    defines no `prepare_semantic_input`, and its extractor has no
    `extract_batch` for `process_messages` to call.
   */
  lemma SemanticImportFails()
    ensures ImportNames(SemanticNames, SemanticImports) == Err(ImportError("prepare_semantic_input"))
    ensures "extract_batch" !in ExtractorMethods
  {
    var names := SemanticImports;
    assert names[0] in SemanticNames && names[1] in SemanticNames;
    assert names[2] !in SemanticNames;
    assert names[1..][1..] == [names[2]];
  }

  /** The components the pipeline can be built with, before gating. */
  datatype Parts = Parts(
    markup: string -> string,                                   // `strip_html`'s substitutions
    prepare: string -> string,                                  // `prepare_semantic_input` with the line filter
    chars: CharClasses, skipLines: int,                         // the splitter's settings
    extractor: E.KeywordExtractor,
    classifier: C.Classifier,
    extract: string -> Option<Semantic.SemanticResult>,         // `_semantic` on one body
    extractBatch: seq<string> -> seq<Option<Semantic.SemanticResult>>)

  /** A built pipeline: the cleaned step list and the components it enabled. */
  datatype Pipeline = Pipeline(
    steps: seq<string>,
    parts: Parts,
    lineFilter: bool,
    splitter: bool,
    semantic: bool,
    aggregator: A.Aggregator)

  /** `Pipeline.__init__`: each component is built exactly when its step is listed. */
  function New(configSteps: seq<string>, parts: Parts): (r: Pipeline)
    ensures r.steps == StrippedNonBlank(configSteps)
    ensures r.lineFilter <==> "line_filter" in r.steps
    ensures r.splitter <==> "splitter" in r.steps
    ensures r.semantic <==> "semantic" in r.steps
    ensures r.aggregator.extractor.Some? <==> "extractor" in r.steps
    ensures r.aggregator.classifier.Some? <==> "classifier" in r.steps
    ensures r.aggregator.extractor.Some? ==> r.aggregator.extractor.value == parts.extractor
    ensures r.aggregator.classifier.Some? ==> r.aggregator.classifier.value == parts.classifier
  {
    var steps := StrippedNonBlank(configSteps);
    Pipeline(steps, parts,
      "line_filter" in steps, "splitter" in steps, "semantic" in steps,
      A.Aggregator(
        if "extractor" in steps then Some(parts.extractor) else None,
        if "classifier" in steps then Some(parts.classifier) else None))
  }

  /** Clean step names reach the pipeline unchanged. */
  lemma CleanStepsKept(configSteps: seq<string>, parts: Parts)
    requires forall k :: 0 <= k < |configSteps| ==> configSteps[k] != [] && Stripped(configSteps[k])
    ensures New(configSteps, parts).steps == configSteps
  {
    StrippedNonBlankOfClean(configSteps);
  }

  /**
    With the steps setting unset (so that it lists the seven stages), every
    stage is enabled.
   */
  lemma DefaultEnablesAll(parts: Parts)
    ensures var p := New(AppConfig.DefaultSteps, parts);
      && p.steps == AppConfig.DefaultSteps
      && p.lineFilter && p.splitter && p.semantic
      && p.aggregator.extractor.Some? && p.aggregator.classifier.Some?
  {
    DefaultStepsClean();
    CleanStepsKept(AppConfig.DefaultSteps, parts);
    DefaultStepsListed();
  }

  lemma DefaultStepsClean()
    ensures forall k :: 0 <= k < |AppConfig.DefaultSteps| ==>
      AppConfig.DefaultSteps[k] != [] && Stripped(AppConfig.DefaultSteps[k])
  {
  }

  lemma DefaultStepsListed()
    ensures "line_filter" in AppConfig.DefaultSteps && "splitter" in AppConfig.DefaultSteps
    ensures "semantic" in AppConfig.DefaultSteps
    ensures "extractor" in AppConfig.DefaultSteps && "classifier" in AppConfig.DefaultSteps
  {
    var d := AppConfig.DefaultSteps;
    assert d[1] == "line_filter" && d[2] == "semantic" && d[3] == "splitter";
    assert d[4] == "extractor" && d[5] == "classifier";
  }

  /** A step name padded on the left is kept, stripped. */
  lemma PaddedStepKept(a: string, b: string)
    requires a != [] && Stripped(a) && b != [] && Stripped(b)
    ensures StrippedNonBlank([a, [' '] + b]) == [a, b]
  {
    assert StrippedNonBlank([a]) == [a] by {
      StrippedNonBlankOfClean([a]);
    }
    assert StrippedNonBlank([[' '] + b]) == [b] by {
      StrippedNonBlankOne([' '] + b);
      StripLeadingSpace(b);
    }
    assert [a, [' '] + b] == [a] + [[' '] + b];
    StrippedNonBlankAppend([a], [[' '] + b]);
  }

  /**
    The pipeline strips each step name, which the setting's parsing does
    not: in `" a, b "` the second name keeps its space, yet stage `b` is
    enabled.
   */
  lemma SpacedStepEnabled(a: string, b: string, parts: Parts)
    requires ',' !in a && ',' !in b
    requires a != [] && Stripped(a) && b != [] && Stripped(b)
    ensures var setting := [' '] + (a + "," + ([' '] + b)) + [' '];
      && AppConfig.PipelineSteps(Some(setting)) == [a, [' '] + b]
      && New(AppConfig.PipelineSteps(Some(setting)), parts).steps == [a, b]
  {
    AppConfig.SplitPadded(a, [' '] + b);
    PaddedStepKept(a, b);
  }

  lemma StripLeadingSpace(t: string)
    requires t != [] && Stripped(t)
    ensures Strip([' '] + t) == t
  {
    assert ([' '] + t)[1..] == t;
    assert TrimStart([' '] + t) == t;
  }

  /** `_apply_line_filter`. */
  function ApplyLineFilter(p: Pipeline, body: string): (r: string)
    ensures !p.lineFilter ==> r == body
  {
    if p.lineFilter then p.parts.prepare(body) else body
  }

  /**
    `_split` without a splitter: the stripped body as one block whose last
    line is counted in the stripped text, or nothing for a blank body.
   */
  function Fallback(body: string): (r: seq<SplitBlock>)
    ensures |r| <= 1
    ensures r == [] <==> AllSpace(body)
    ensures r != [] ==> r[0].text == Strip(body) && r[0].startLine == 0 && r[0].endLine == |SplitLines(r[0].text)| - 1
  {
    StripEmptyIffAllSpace(body);
    var cleaned := Strip(body);
    if cleaned != [] then [SplitBlock(cleaned, 0, |SplitLines(cleaned)| - 1)] else []
  }

  /** `_split`. */
  function SplitBody(p: Pipeline, body: string): (r: seq<SplitBlock>)
    ensures !p.splitter ==> r == Fallback(body)
    ensures p.splitter ==> r == Split(p.parts.chars, p.parts.skipLines, body)
    ensures forall k :: 0 <= k < |r| ==> r[k].text != []
  {
    if p.splitter then Split(p.parts.chars, p.parts.skipLines, body) else Fallback(body)
  }

  /**
    For a body without surrounding whitespace, the fallback gives what the
    splitter gives when it finds no marker.
   */
  lemma FallbackIsMarkerless(p: Pipeline, body: string)
    requires Stripped(body)
    requires Markers(p.parts.chars, p.parts.skipLines, SplitLines(body)) == []
    ensures Fallback(body) == Split(p.parts.chars, p.parts.skipLines, body)
  {
    StripOfStripped(body);
    NoMarkerWholeBody(p.parts.chars, p.parts.skipLines, body);
  }

  lemma LeadingBreak(x: string)
    requires x != [] && NoLineBreak(x)
    ensures SplitLines("\n" + x) == ["", x]
  {
    var s := "\n" + x;
    assert BreakIndex(s) == 0;
    assert s[1..] == x;
    SingleLine(x);
  }

  /**
    With a leading blank line they differ: the splitter counts the lines of
    the whole body, the fallback those of the stripped body, so a body
    `"\n" + x` ends at line 1 in one and at line 0 in the other.
   */
  lemma FallbackCountsStrippedLines(p: Pipeline, x: string)
    requires x != [] && NoLineBreak(x) && Stripped(x)
    requires p.parts.skipLines >= 1
    ensures Fallback("\n" + x) == [SplitBlock(x, 0, 0)]
    ensures Split(p.parts.chars, p.parts.skipLines, "\n" + x) == [SplitBlock(x, 0, 1)]
  {
    var body := "\n" + x;
    LeadingBreak(x);
    SingleLine(x);
    assert body[1..] == x;
    assert TrimStart(body) == x;
    StripOfStripped(x);
    NoMarkersInHead(p.parts.chars, p.parts.skipLines, SplitLines(body), 0);
    NoMarkerWholeBody(p.parts.chars, p.parts.skipLines, body);
  }

  /** A message as the pipeline reads it (`EmailContent`'s `source_path`, `subject` and `body`). */
  datatype Message = Message(sourcePath: string, subject: string, body: string)

  /** What a message's `aggregation` holds: the aggregator's result, or `{"blocks": [], "summary": {}}`. */
  datatype MessageAggregation = Aggregated(aggregation: A.Aggregation) | Skipped

  /** `PipelineResult`. */
  datatype PipelineResult = PipelineResult(
    sourcePath: string,
    subject: string,
    semantic: Option<Semantic.SemanticResult>,
    aggregation: MessageAggregation,
    blocks: seq<SplitBlock>)

  /** The body the later stages see: cleaned when `cleaner` is a step, then line-filtered. */
  function FilteredBody(p: Pipeline, m: Message): (r: string)
    ensures "cleaner" !in p.steps && !p.lineFilter ==> r == m.body
    ensures "cleaner" in p.steps && !p.lineFilter ==> r == Cleaner.CleanBody(Cleaner.Message(m.body), p.parts.markup)
  {
    var clean := if "cleaner" in p.steps then Cleaner.CleanBody(Cleaner.Message(m.body), p.parts.markup) else m.body;
    ApplyLineFilter(p, clean)
  }

  /** The aggregation of one message's blocks. */
  function AggregationOf(p: Pipeline, blocks: seq<SplitBlock>): (r: MessageAggregation)
    ensures r.Skipped? <==> "aggregator" !in p.steps
    ensures r.Aggregated? ==> |r.aggregation.blocks| == |blocks|
  {
    if "aggregator" in p.steps then Aggregated(A.Aggregate(p.aggregator, blocks)) else Skipped
  }

  /** The result for one message, given its semantic result. */
  function ResultFor(p: Pipeline, m: Message, semantic: Option<Semantic.SemanticResult>): (r: PipelineResult)
    ensures r.sourcePath == m.sourcePath && r.subject == m.subject && r.semantic == semantic
    ensures r.blocks == SplitBody(p, FilteredBody(p, m))
    ensures r.aggregation == AggregationOf(p, r.blocks)
  {
    var blocks := SplitBody(p, FilteredBody(p, m));
    PipelineResult(m.sourcePath, m.subject, semantic, AggregationOf(p, blocks), blocks)
  }

  /** `process_message`: the semantic stage runs on the filtered body when enabled. */
  function ProcessMessage(p: Pipeline, m: Message): (r: PipelineResult)
    ensures !p.semantic ==> r.semantic.None?
    ensures r == ResultFor(p, m, if p.semantic then p.parts.extract(FilteredBody(p, m)) else None)
  {
    ResultFor(p, m, if p.semantic then p.parts.extract(FilteredBody(p, m)) else None)
  }

  function FilteredBodies(p: Pipeline, messages: seq<Message>): (r: seq<string>)
    ensures |r| == |messages|
    ensures forall i :: 0 <= i < |r| ==> r[i] == FilteredBody(p, messages[i])
  {
    seq(|messages|, i requires 0 <= i < |messages| => FilteredBody(p, messages[i]))
  }

  /** The semantic results `process_messages` pairs with the messages. */
  function SemanticResults(p: Pipeline, messages: seq<Message>): (r: seq<Option<Semantic.SemanticResult>>)
    ensures !p.semantic ==> |r| == |messages| && forall i :: 0 <= i < |r| ==> r[i].None?
  {
    if p.semantic then p.parts.extractBatch(FilteredBodies(p, messages))
    else seq(|messages|, i => None)
  }

  function Min(a: nat, b: nat): nat {
    if a <= b then a else b
  }

  /**
    `process_messages`: the messages zipped with the batch's semantic
    results (so the shorter of the two decides the count), each with its
    own blocks and aggregation.
   */
  function ProcessMessages(p: Pipeline, messages: seq<Message>): (r: seq<PipelineResult>)
    ensures var sems := SemanticResults(p, messages);
      && |r| == Min(|messages|, |sems|)
      && forall i :: 0 <= i < |r| ==> r[i] == ResultFor(p, messages[i], sems[i])
  {
    var sems := SemanticResults(p, messages);
    var n := Min(|messages|, |sems|);
    seq(n, i requires 0 <= i < n => ResultFor(p, messages[i], sems[i]))
  }

  /**
    One result per message, in order, carrying that message's path and
    subject, whenever the semantic stage is off or its batch returns one
    result per body.
   */
  lemma OneResultPerMessage(p: Pipeline, messages: seq<Message>)
    requires !p.semantic || |p.parts.extractBatch(FilteredBodies(p, messages))| == |messages|
    ensures var r := ProcessMessages(p, messages);
      && |r| == |messages|
      && forall i :: 0 <= i < |r| ==> r[i].sourcePath == messages[i].sourcePath && r[i].subject == messages[i].subject
  {
  }

  /**
    The batch path agrees with `process_message` on every message when the
    batch returns, body by body, what `extract` returns.
   */
  lemma BatchAgreesWithSingle(p: Pipeline, messages: seq<Message>)
    requires p.semantic ==> var bodies := FilteredBodies(p, messages);
      && |p.parts.extractBatch(bodies)| == |messages|
      && forall i :: 0 <= i < |messages| ==> p.parts.extractBatch(bodies)[i] == p.parts.extract(bodies[i])
    ensures |ProcessMessages(p, messages)| == |messages|
    ensures forall i :: 0 <= i < |messages| ==> ProcessMessages(p, messages)[i] == ProcessMessage(p, messages[i])
  {
  }

  /** Without the `aggregator` step every message's aggregation is the empty placeholder. */
  lemma NoAggregatorStep(p: Pipeline, messages: seq<Message>)
    requires "aggregator" !in p.steps
    ensures forall i :: 0 <= i < |ProcessMessages(p, messages)| ==> ProcessMessages(p, messages)[i].aggregation == Skipped
  {
  }
}
