/**
  The block aggregator (backend/app/services/aggregator.py) and the
  run-level summary built from it (backend/app/routes/pipeline.py).

  The extractor and the classifier are optional; a missing one contributes
  empty hit lists and an empty summary. The result has exactly three parts:
  the blocks, the keyword summary and the class summary. It carries no block
  count, although the frontend's `Aggregation` type declares one.
 */
module Aggregator {
  import opened Results
  import opened Text
  import opened Stats
  import opened Splitter
  import E = Extractor
  import C = Classifier

  /** One block with its hits (`AggregatedBlock`). */
  datatype AggregatedBlock = AggregatedBlock(
    text: string,
    startLine: int,
    endLine: int,
    keywords: seq<E.KeywordMatch>,
    classes: seq<string>)

  /** The three keys of the dictionary `aggregate_blocks` returns. */
  datatype Aggregation = Aggregation(
    blocks: seq<AggregatedBlock>,
    keywordSummary: map<string, seq<KeywordStat>>,
    classSummary: map<string, ClassStat>)

  datatype Aggregator = Aggregator(extractor: Option<E.KeywordExtractor>, classifier: Option<C.Classifier>)

  /** `[b.text for b in blocks]`. */
  function Texts(blocks: seq<SplitBlock>): (r: seq<string>)
    ensures |r| == |blocks|
    ensures forall i :: 0 <= i < |blocks| ==> r[i] == blocks[i].text
  {
    seq(|blocks|, i requires 0 <= i < |blocks| => blocks[i].text)
  }

  /** The keyword hits of one text, or none without an extractor. */
  function KeywordHits(a: Aggregator, text: string): seq<E.KeywordMatch> {
    if a.extractor.Some? then E.ExtractKeywords(a.extractor.value, text) else []
  }

  /** The class hits of one text (what `classify_block` returns), or none without a classifier. */
  function ClassHits(a: Aggregator, text: string): seq<string> {
    if a.classifier.Some? then C.BlockClasses(a.classifier.value.classes, SplitLines(text), a.classifier.value.dedupe) else []
  }

  /** `aggregate_blocks`. */
  function Aggregate(a: Aggregator, blocks: seq<SplitBlock>): (r: Aggregation)
    ensures |r.blocks| == |blocks|
    ensures forall i :: 0 <= i < |blocks| ==>
      && r.blocks[i].text == blocks[i].text
      && r.blocks[i].startLine == blocks[i].startLine
      && r.blocks[i].endLine == blocks[i].endLine
    ensures a.extractor.None? ==> r.keywordSummary == map[] && forall i :: 0 <= i < |blocks| ==> r.blocks[i].keywords == []
    ensures a.classifier.None? ==> r.classSummary == map[] && forall i :: 0 <= i < |blocks| ==> r.blocks[i].classes == []
    ensures a.extractor.Some? ==> r.keywordSummary.Keys == (if blocks == [] then {} else E.CountByCategory(a.extractor.value, Texts(blocks)).Keys)
  {
    var texts := Texts(blocks);
    var aggregated := seq(|blocks|, i requires 0 <= i < |blocks| =>
      AggregatedBlock(blocks[i].text, blocks[i].startLine, blocks[i].endLine,
        KeywordHits(a, texts[i]), ClassHits(a, texts[i])));
    Aggregation(
      aggregated,
      if a.extractor.Some? then E.Summarize(a.extractor.value, texts) else map[],
      if a.classifier.Some? then C.Summarize(a.classifier.value, texts) else map[])
  }

  /**
    With an extractor, every aggregated block's keywords are that block's
    own hits: distinct keywords of the configuration, each with its category.
   */
  lemma AggregatedKeywords(a: Aggregator, blocks: seq<SplitBlock>, i: nat)
    requires a.extractor.Some? && E.Valid(a.extractor.value) && i < |blocks|
    ensures var hits := Aggregate(a, blocks).blocks[i].keywords;
      && hits == E.ExtractKeywords(a.extractor.value, blocks[i].text)
      && E.DistinctKeywords(hits)
      && forall k :: 0 <= k < |hits| ==> E.InSomeGroup(a.extractor.value.groups, hits[k].keyword)
  {
    E.ExtractKeywordsSpans(a.extractor.value, blocks[i].text);
    E.ExtractKeywordsConfigured(a.extractor.value, blocks[i].text);
  }

  /**
    With a classifier, every aggregated block lists exactly the classes
    one of whose patterns occurs in one of the block's lines.
   */
  lemma AggregatedClasses(a: Aggregator, blocks: seq<SplitBlock>, i: nat, name: string)
    requires a.classifier.Some? && i < |blocks|
    ensures var c := a.classifier.value;
      (name in Aggregate(a, blocks).blocks[i].classes <==>
        exists k :: 0 <= k < |c.classes| && c.classes[k].0 == name && C.AnyLineMatches(SplitLines(blocks[i].text), c.classes[k].1))
  {
    var c := a.classifier.value;
    C.ClassifiedIff(c.classes, SplitLines(blocks[i].text), c.dedupe, name);
  }

  /** All messages' blocks, in message order (`all_blocks.extend(res.blocks)`). */
  function Flatten(messages: seq<seq<SplitBlock>>): seq<SplitBlock> {
    if messages == [] then [] else Flatten(messages[..|messages| - 1]) + messages[|messages| - 1]
  }

  /**
    The `summary` of a pipeline run: the empty-run answer when there are
    no messages, else the aggregation of every message's blocks together
    (absent without an aggregator) and the number of messages.
   */
  datatype RunSummary =
    | NoMessages
    | Overall(aggregation: Option<Aggregation>, messageCount: nat)

  function Run(aggregator: Option<Aggregator>, messages: seq<seq<SplitBlock>>): (r: RunSummary)
    ensures messages == [] <==> r.NoMessages?
    ensures r.Overall? ==> r.messageCount == |messages|
    ensures r.Overall? ==> (r.aggregation.Some? <==> aggregator.Some?)
    ensures r.Overall? && aggregator.Some? ==> |r.aggregation.value.blocks| == |Flatten(messages)|
  {
    if messages == [] then NoMessages
    else Overall(if aggregator.Some? then Some(Aggregate(aggregator.value, Flatten(messages))) else None, |messages|)
  }

  lemma {:induction false} TextsAppend(a: seq<SplitBlock>, b: seq<SplitBlock>)
    ensures Texts(a + b) == Texts(a) + Texts(b)
  {
    assert forall i :: 0 <= i < |a + b| ==> (a + b)[i].text == (Texts(a) + Texts(b))[i];
  }

  /** Sum of a class's counts taken message by message. */
  function ClassCountPerMessage(c: C.Classifier, messages: seq<seq<SplitBlock>>, name: string): nat {
    if messages == [] then 0
    else ClassCountPerMessage(c, messages[..|messages| - 1], name) + C.ClassCount(c, Texts(messages[|messages| - 1]), name)
  }

  /** Sum of a keyword's block counts taken message by message. */
  function KeywordCountPerMessage(x: E.KeywordExtractor, messages: seq<seq<SplitBlock>>, kw: string): nat {
    if messages == [] then 0
    else KeywordCountPerMessage(x, messages[..|messages| - 1], kw) + E.BlocksWith(x, Texts(messages[|messages| - 1]), kw)
  }

  /**
    The run-level counts are the sums of the per-message counts: the
    overall summary recounts all blocks together and averages nothing.
   */
  lemma {:induction false} RunCountsAreSums(x: E.KeywordExtractor, c: C.Classifier, messages: seq<seq<SplitBlock>>, kw: string, name: string)
    ensures E.BlocksWith(x, Texts(Flatten(messages)), kw) == KeywordCountPerMessage(x, messages, kw)
    ensures C.ClassCount(c, Texts(Flatten(messages)), name) == ClassCountPerMessage(c, messages, name)
    decreases |messages|
  {
    if messages != [] {
      var init := messages[..|messages| - 1];
      var last := messages[|messages| - 1];
      RunCountsAreSums(x, c, init, kw, name);
      TextsAppend(Flatten(init), last);
      E.BlocksWithAppend(x, Texts(Flatten(init)), Texts(last), kw);
      C.ClassCountAppend(c, Texts(Flatten(init)), Texts(last), name);
    } else {
      assert Texts([]) == [];
    }
  }
}
